/**
 The kernels of the resampler.  The linear kernel multiplies an unsigned 64-bit fraction by a
 signed difference in wrapping unsigned arithmetic and truncates the sum to 16 bits.
 */
module LinearInterpolation {
  import opened Common
  import opened Resampler

  const WORD64 := 0x1_0000_0000_0000_0000

  function Clamp(x: int, lo: int, hi: int): int {
    if x < lo then lo else if x > hi then hi else x
  }

  // The low 16 bits read as a signed number.
  function TruncateS16(x: nat): (r: int)
    ensures IsS16(r)
  {
    var low := x % 0x1_0000;
    if low < 32768 then low else low - 0x1_0000
  }

  // One channel as the source computes it, every operation wrapping to 64 bits.
  function Lerp(fraction: nat, x0: int, x1: int): int {
    var delta := Clamp(x1 - x0, -32768, 32767);
    var product := fraction * (delta % WORD64) % WORD64;
    var sum := (x0 % WORD64 + product / SCALE) % WORD64;
    TruncateS16(sum)
  }

  function None(fraction: nat, x0: Stereo, x1: Stereo, x2: Stereo): Stereo {
    x0
  }

  function Linear(fraction: nat, x0: Stereo, x1: Stereo, x2: Stereo): Stereo {
    Stereo(Lerp(fraction, x0.left, x1.left), Lerp(fraction, x0.right, x1.right))
  }

  /* ---------- Over the integers ---------- */

  // The product of the fraction and the difference, between nothing and the whole difference.
  lemma ProductBounds(fraction: nat, delta: int)
    requires fraction < SCALE
    ensures delta >= 0 ==> 0 <= fraction * delta <= SCALE * delta
    ensures delta < 0 ==> SCALE * delta <= fraction * delta <= 0
  {
    if delta >= 0 {
      assert fraction * delta <= SCALE * delta;
    } else {
      assert fraction * -delta <= SCALE * -delta;
      assert fraction * -delta == -(fraction * delta);
    }
  }

  lemma WrapMultiple(x: int, k: nat)
    ensures (x + k * WORD64) % WORD64 == x % WORD64
  {
  }

  // Multiplying by the unsigned image of a negative difference wraps to the same product.
  lemma MulWrap(a: nat, d: int)
    requires -32768 <= d <= 32767
    ensures a * (d % WORD64) % WORD64 == a * d % WORD64
  {
    if d < 0 {
      assert d % WORD64 == d + WORD64;
      assert a * (d + WORD64) == a * d + a * WORD64;
      WrapMultiple(a * d, a);
    }
  }

  // Dividing the wrapped product: a negative one only gains a multiple of 2^40.
  lemma WrappedQuotient(p: int)
    requires -0x80_0000_0000 <= p <= 0x80_0000_0000
    ensures p % WORD64 / SCALE == p / SCALE + if p < 0 then 0x100_0000_0000 else 0
  {
    if p < 0 {
      assert p % WORD64 == p + WORD64;
    } else {
      assert p % WORD64 == p;
    }
  }

  // The truncated sum is the integer sum, when that fits.
  lemma TruncatedSum(x0: int, q: int, high: nat)
    requires IsS16(x0) && IsS16(x0 + q) && -32768 <= q <= 32767 && (high == 0 || high == 0x100_0000_0000)
    requires q + high >= 0
    ensures TruncateS16((x0 % WORD64 + (q + high)) % WORD64) == x0 + q
  {
    var sum := (x0 % WORD64 + (q + high)) % WORD64;
    assert x0 % WORD64 == if x0 < 0 then x0 + WORD64 else x0;
    var v := x0 + q;
    assert sum == (v + high) % WORD64;
    assert sum % 0x1_0000 == v % 0x1_0000;
  }

  lemma QuotientBounds(fraction: nat, delta: int)
    requires fraction < SCALE && -32768 <= delta <= 32767
    ensures delta >= 0 ==> 0 <= fraction * delta / SCALE <= delta
    ensures delta < 0 ==> delta <= fraction * delta / SCALE <= 0
  {
    ProductBounds(fraction, delta);
  }

  // For positive, negative and saturated differences alike: the wrapping computation is the
  // integer one, rounded down, and lies between the two samples.
  lemma LerpIsExact(fraction: nat, x0: int, x1: int)
    requires fraction < SCALE && IsS16(x0) && IsS16(x1)
    ensures Lerp(fraction, x0, x1) == x0 + fraction * Clamp(x1 - x0, -32768, 32767) / SCALE
    ensures if x0 <= x1 then x0 <= Lerp(fraction, x0, x1) <= x1 else x1 <= Lerp(fraction, x0, x1) <= x0
  {
    var delta := Clamp(x1 - x0, -32768, 32767);
    var p := fraction * delta;
    ProductBounds(fraction, delta);
    QuotientBounds(fraction, delta);
    MulWrap(fraction, delta);
    WrappedQuotient(p);
    TruncatedSum(x0, p / SCALE, if p < 0 then 0x100_0000_0000 else 0);
  }

  /* ---------- The streamed output ---------- */

  ghost predicate IsSample(s: Stereo) {
    IsS16(s.left) && IsS16(s.right)
  }

  // The linear interpolation of the input at a position, over the integers.
  ghost function At(x: seq<Stereo>, position: nat): Stereo
    requires position / SCALE + 1 < |x|
  {
    var i, fraction := position / SCALE, position % SCALE;
    Stereo(x[i].left + fraction * Clamp(x[i + 1].left - x[i].left, -32768, 32767) / SCALE,
           x[i].right + fraction * Clamp(x[i + 1].right - x[i].right, -32768, 32767) / SCALE)
  }

  // However input and output are cut: output sample k of the linear resampler is the integer
  // interpolation of the one input sequence at position p0 + k * step.
  lemma LinearStream(xn2: Stereo, xn1: Stereo, p0: nat, step: nat, calls: seq<Request>)
    requires var x := [xn2, xn1] + AllInput(calls); forall i :: 0 <= i < |x| ==> IsSample(x[i])
    ensures var x, out := [xn2, xn1] + AllInput(calls), RunAll(Stream([xn2, xn1], p0), calls, step, Linear).1;
            forall k :: 0 <= k < |out| ==> (p0 + k * step) / SCALE + 2 < |x| && out[k] == At(x, p0 + k * step)
  {
    var c := StreamingIsBatch(xn2, xn1, p0, step, Linear, calls);
    LinearBatch([xn2, xn1] + AllInput(calls), p0, step, RunAll(Stream([xn2, xn1], p0), calls, step, Linear).1);
  }

  lemma LinearBatch(x: seq<Stereo>, p0: nat, step: nat, out: seq<Stereo>)
    requires forall i :: 0 <= i < |x| ==> IsSample(x[i])
    requires forall k :: 0 <= k < |out| ==> (p0 + k * step) / SCALE + 2 < |x| && out[k] == Sample(x, p0 + k * step, Linear)
    ensures forall k :: 0 <= k < |out| ==> (p0 + k * step) / SCALE + 2 < |x| && out[k] == At(x, p0 + k * step)
  {
    forall k | 0 <= k < |out|
      ensures (p0 + k * step) / SCALE + 2 < |x| && out[k] == At(x, p0 + k * step)
    {
      SampleIsAt(x, p0 + k * step);
    }
  }

  lemma SampleIsAt(x: seq<Stereo>, position: nat)
    requires position / SCALE + 2 < |x| && forall i :: 0 <= i < |x| ==> IsSample(x[i])
    ensures Sample(x, position, Linear) == At(x, position)
  {
    var i, fraction := position / SCALE, position % SCALE;
    assert IsSample(x[i]) && IsSample(x[i + 1]);
    LerpIsExact(fraction, x[i].left, x[i + 1].left);
    LerpIsExact(fraction, x[i].right, x[i + 1].right);
  }

  // And without interpolation it is the input sample at or before that position.
  lemma NoneStream(xn2: Stereo, xn1: Stereo, p0: nat, step: nat, calls: seq<Request>)
    ensures var x, out := [xn2, xn1] + AllInput(calls), RunAll(Stream([xn2, xn1], p0), calls, step, None).1;
            forall k :: 0 <= k < |out| ==> (p0 + k * step) / SCALE + 2 < |x| && out[k] == x[(p0 + k * step) / SCALE]
  {
    var c := StreamingIsBatch(xn2, xn1, p0, step, None, calls);
  }
}
