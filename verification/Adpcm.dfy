/**
 The GC-ADPCM decoder: a second-order recursive filter with clamping whose history is carried
 from call to call.  Frames are 8 bytes with 14 samples of one nibble each.
 */
module Adpcm {
  import opened Common

  const FRAME_LEN := 8
  const SAMPLES_PER_FRAME := 14

  // The two samples before the next one.
  datatype History = History(yn1: int, yn2: int)

  predicate IsHistory(h: History) {
    IsS16(h.yn1) && IsS16(h.yn2)
  }

  function Clamp16(x: int): (r: int)
    ensures IsS16(r) && (IsS16(x) ==> r == x)
  {
    if x < -32768 then -32768 else if x > 32767 then 32767 else x
  }

  function Scale(header: Byte): nat {
    Pow2(header % 16)
  }

  function Coeff(coeff: seq<int>, header: Byte, which: nat): int
    requires |coeff| == 16 && which < 2
  {
    coeff[header / 16 % 8 * 2 + which]
  }

  function Signed(nibble: nat): int {
    if nibble < 8 then nibble else nibble - 16
  }

  // The filter in 11-bit fixed point before the shift and the clamping.
  function Accumulator(xn: int, c1: int, c2: int, h: History): int {
    xn * 2048 + 0x400 + c1 * h.yn1 + c2 * h.yn2
  }

  function Filter(nibble: int, header: Byte, coeff: seq<int>, h: History): (v: int)
    requires |coeff| == 16
    ensures IsS16(v)
  {
    Clamp16(Accumulator(nibble * Scale(header), Coeff(coeff, header, 0), Coeff(coeff, header, 1), h) / 2048)
  }

  /* ---------- The reference: sample by sample ---------- */

  // The byte that holds the header of sample `n`: one frame further, eight bytes further.
  function HeaderAt(n: nat): (i: nat) {
    if n < SAMPLES_PER_FRAME then 0 else FRAME_LEN + HeaderAt(n - SAMPLES_PER_FRAME)
  }

  // The byte that holds sample `n`: two samples to a byte behind the header.
  function ByteAt(n: nat): (i: nat)
    ensures HeaderAt(n) < i
  {
    if n < SAMPLES_PER_FRAME then 1 + n / 2 else FRAME_LEN + ByteAt(n - SAMPLES_PER_FRAME)
  }

  // The signed nibble of sample `n`: the high half of its byte comes first.
  function NibbleOf(b: Byte, n: nat): int {
    Signed(if n % 2 == 0 then b / 16 else b % 16)
  }

  // The bytes that the first `n` samples need.
  function Needed(n: nat): nat {
    if n == 0 then 0 else ByteAt(n - 1) + 1
  }

  // What the filter takes from the data for one sample.
  datatype Code = Code(nibble: int, header: Byte)

  function CodeAt(data: seq<Byte>, n: nat): Code
    requires ByteAt(n) < |data|
  {
    Code(NibbleOf(data[ByteAt(n)], n), data[HeaderAt(n)])
  }

  // The codes of samples 0 to n - 1.
  function Codes(data: seq<Byte>, n: nat): (r: seq<Code>)
    requires Needed(n) <= |data|
    ensures |r| == n
  {
    if n == 0 then [] else
    NeededGrows(n - 1, n);
    Codes(data, n - 1) + [CodeAt(data, n - 1)]
  }

  datatype Decoded = Decoded(out: seq<int>, h: History)

  // The filter over a sequence of codes.
  function Fold(codes: seq<Code>, coeff: seq<int>, h: History): (d: Decoded)
    requires |coeff| == 16
    ensures |d.out| == |codes|
  {
    if codes == [] then Decoded([], h) else
    var d, c := Fold(codes[..|codes| - 1], coeff, h), codes[|codes| - 1];
    var v := Filter(c.nibble, c.header, coeff, d.h);
    Decoded(d.out + [v], History(v, d.h.yn1))
  }

  // Samples 0 to n - 1.
  function Samples(data: seq<Byte>, n: nat, coeff: seq<int>, h: History): (d: Decoded)
    requires Needed(n) <= |data| && |coeff| == 16
    ensures |d.out| == n
  {
    Fold(Codes(data, n), coeff, h)
  }

  lemma NeededGrows(m: nat, n: nat)
    requires m <= n
    ensures Needed(m) <= Needed(n)
  {
    if 0 < m < n {
      ByteGrows(m - 1, n - 1);
    }
  }

  lemma {:induction false} ByteGrows(m: nat, n: nat)
    requires m <= n
    ensures ByteAt(m) <= ByteAt(n)
  {
    if m >= 14 {
      ByteGrows(m - 14, n - 14);
    } else if n >= 14 {
      ByteBound(n - 14);
    }
  }

  lemma {:induction false} ByteBound(n: nat)
    ensures 1 <= ByteAt(n) && ByteAt(n) < (n + 14) / 14 * FRAME_LEN
  {
    if n >= 14 {
      ByteBound(n - 14);
    }
  }

  // All of it lies in the frames that the samples occupy.
  lemma NeededInFrames(n: nat)
    ensures Needed(n) <= (n + 13) / 14 * FRAME_LEN
  {
    if n > 0 {
      ByteBound(n - 1);
    }
  }

  /* ---------- Composition ---------- */

  lemma {:induction false} FrameShift(f: nat, n: nat)
    ensures HeaderAt(14 * f + n) == 8 * f + HeaderAt(n) && ByteAt(14 * f + n) == 8 * f + ByteAt(n)
    ensures (14 * f + n) % 2 == n % 2
    decreases f
  {
    if f > 0 {
      FrameShift(f - 1, n);
      assert 14 * f + n - 14 == 14 * (f - 1) + n;
    }
  }

  lemma NeededShift(f: nat, n: nat)
    requires n > 0
    ensures Needed(14 * f + n) == 8 * f + Needed(n)
  {
    FrameShift(f, n - 1);
  }

  lemma EnoughBytes(f: nat, n: nat)
    ensures Needed(14 * f) <= Needed(14 * f + n) <= 8 * f + Needed(n)
  {
    NeededGrows(14 * f, 14 * f + n);
    if n > 0 {
      NeededShift(f, n);
    } else {
      NeededInFrames(14 * f);
    }
  }

  lemma {:induction false} CodesAt(data: seq<Byte>, n: nat, k: nat)
    requires Needed(n) <= |data| && k < n
    ensures ByteAt(k) < |data| && Codes(data, n)[k] == CodeAt(data, k)
  {
    NeededGrows(n - 1, n);
    NeededGrows(k + 1, n);
    if k < n - 1 {
      CodesAt(data, n - 1, k);
    }
  }

  lemma ShiftedCode(data: seq<Byte>, f: nat, k: nat)
    requires 8 * f + ByteAt(k) < |data|
    ensures ByteAt(14 * f + k) < |data| && CodeAt(data, 14 * f + k) == CodeAt(data[8 * f..], k)
  {
    FrameShift(f, k);
    assert data[8 * f..][ByteAt(k)] == data[8 * f + ByteAt(k)];
    assert data[8 * f..][HeaderAt(k)] == data[8 * f + HeaderAt(k)];
  }

  lemma ShiftedCodes(data: seq<Byte>, f: nat, n: nat, k: nat)
    requires 8 * f + Needed(n) <= |data| && k < n
    ensures ByteAt(14 * f + k) < |data| && Codes(data[8 * f..], n)[k] == CodeAt(data, 14 * f + k)
  {
    CodesAt(data[8 * f..], n, k);
    ShiftedCode(data, f, k);
  }

  // The codes of the data from frame `f` on continue those before it.
  lemma CodesSplit(data: seq<Byte>, f: nat, n: nat)
    requires 8 * f + Needed(n) <= |data|
    ensures Needed(14 * f) <= |data| && Needed(14 * f + n) <= |data|
    ensures Codes(data, 14 * f + n) == Codes(data, 14 * f) + Codes(data[8 * f..], n)
  {
    EnoughBytes(f, n);
    var a, b, c := Codes(data, 14 * f), Codes(data[8 * f..], n), Codes(data, 14 * f + n);
    forall k | 0 <= k < |c|
      ensures c[k] == (a + b)[k]
    {
      CodesAt(data, 14 * f + n, k);
      if k < 14 * f {
        CodesAt(data, 14 * f, k);
      } else {
        ShiftedCodes(data, f, n, k - 14 * f);
      }
    }
  }

  lemma {:induction false} FoldAppend(a: seq<Code>, b: seq<Code>, coeff: seq<int>, h: History)
    requires |coeff| == 16
    ensures var first := Fold(a, coeff, h);
            var second := Fold(b, coeff, first.h);
            Fold(a + b, coeff, h) == Decoded(first.out + second.out, second.h)
    decreases |b|
  {
    var first := Fold(a, coeff, h);
    if b == [] {
      assert a + b == a && first.out + [] == first.out;
    } else {
      var init := b[..|b| - 1];
      FoldAppend(a, init, coeff, h);
      assert (a + b)[..|a + b| - 1] == a + init;
      assert (a + b)[|a + b| - 1] == b[|b| - 1];
      var v := Fold(b, coeff, first.h).h.yn1;
      assert first.out + Fold(init, coeff, first.h).out + [v] == first.out + (Fold(init, coeff, first.h).out + [v]);
    }
  }

  // Decoding on from the start of frame `f`, with the history reached there, is decoding in one go.
  lemma Compose(data: seq<Byte>, f: nat, n: nat, coeff: seq<int>, h: History)
    requires 8 * f + Needed(n) <= |data| && |coeff| == 16
    ensures Needed(14 * f) <= |data| && Needed(14 * f + n) <= |data|
    ensures var first := Samples(data, 14 * f, coeff, h);
            var second := Samples(data[8 * f..], n, coeff, first.h);
            Samples(data, 14 * f + n, coeff, h) == Decoded(first.out + second.out, second.h)
  {
    CodesSplit(data, f, n);
    FoldAppend(Codes(data, 14 * f), Codes(data[8 * f..], n), coeff, h);
  }

  // Only the first `Needed(n)` bytes matter.
  lemma OnlyPrefix(data: seq<Byte>, other: seq<Byte>, n: nat, coeff: seq<int>, h: History)
    requires Needed(n) <= |data| && Needed(n) <= |other| && data[..Needed(n)] == other[..Needed(n)] && |coeff| == 16
    ensures Samples(data, n, coeff, h) == Samples(other, n, coeff, h)
  {
    var a, b := Codes(data, n), Codes(other, n);
    forall k | 0 <= k < n
      ensures a[k] == b[k]
    {
      CodesAt(data, n, k);
      CodesAt(other, n, k);
      NeededGrows(k + 1, n);
      assert data[ByteAt(k)] == data[..Needed(n)][ByteAt(k)] == other[ByteAt(k)];
      assert data[HeaderAt(k)] == data[..Needed(n)][HeaderAt(k)] == other[HeaderAt(k)];
    }
    assert a == b;
  }

  lemma {:induction false} InRange(codes: seq<Code>, coeff: seq<int>, h: History)
    requires |coeff| == 16 && IsHistory(h)
    ensures var d := Fold(codes, coeff, h);
            IsHistory(d.h) && forall k :: 0 <= k < |d.out| ==> IsS16(d.out[k])
  {
    if codes != [] {
      InRange(codes[..|codes| - 1], coeff, h);
    }
  }

  /* ---------- The integer bound ---------- */

  predicate IsS32(x: int) {
    -0x8000_0000 <= x <= 0x7fff_ffff
  }

  function Abs(x: int): nat {
    if x < 0 then -x else x
  }

  // No intermediate of the filter leaves the range, in the order in which the source adds.
  predicate Fits(xn: int, c1: int, c2: int, h: History) {
    && IsS32(xn) && IsS32(xn * 2048) && IsS32(xn * 2048 + 0x400)
    && IsS32(c1 * h.yn1) && IsS32(xn * 2048 + 0x400 + c1 * h.yn1)
    && IsS32(c2 * h.yn2) && IsS32(Accumulator(xn, c1, c2, h))
  }

  lemma TimesLe(d: nat, a: int, b: int)
    requires a <= b
    ensures d * a <= d * b
  {
    assert d * b - d * a == d * (b - a) >= 0;
  }

  lemma {:induction false} Pow2Bound(n: nat)
    requires n <= 15
    ensures Pow2(n) <= 32768
    decreases 15 - n
  {
    if n < 15 {
      Pow2Bound(n + 1);
    } else {
      assert Pow2(3) == 8 && Pow2(6) == 64 && Pow2(9) == 512 && Pow2(12) == 4096;
      assert Pow2(14) == 16384;
    }
  }

  lemma ScaledNibble(nibble: int, header: Byte)
    requires -8 <= nibble <= 7
    ensures -0x4_0000 <= nibble * Scale(header) <= 0x3_8000
  {
    Pow2Bound(header % 16);
    var s := Scale(header);
    TimesLe(s, -8, nibble);
    TimesLe(s, nibble, 7);
  }

  // How far a coefficient can pull the sum down, and push it up.
  function Down(c: int): int {
    if c >= 0 then 32768 * c else -32767 * c
  }

  function Up(c: int): int {
    if c >= 0 then 32767 * c else -32768 * c
  }

  lemma PullBounds(c: int, y: int)
    requires IsS16(y)
    ensures -Down(c) <= c * y <= Up(c)
  {
    if c >= 0 {
      TimesLe(c, -32768, y);
      TimesLe(c, y, 32767);
    } else {
      TimesLe(-c, -32768, y);
      TimesLe(-c, y, 32767);
      assert c * y == -(-c * y);
    }
  }

  // The sample that pulls down most, and the one that pushes up most.
  function Lowest(c: int): int {
    if c >= 0 then -32768 else 32767
  }

  function Highest(c: int): int {
    if c >= 0 then 32767 else -32768
  }

  lemma LargestScale()
    ensures Scale(15) == 32768
  {
    assert Pow2(3) == 8 && Pow2(6) == 64 && Pow2(9) == 512 && Pow2(12) == 4096;
  }

  // For coefficients of any sign: every nibble, scale and history stays inside 32 bits if and only
  // if the lowest and the highest sum do.
  lemma BoundIsSharp(c1: int, c2: int)
    ensures (forall nibble: int, header: Byte, h: History :: -8 <= nibble <= 7 && IsHistory(h) ==> Fits(nibble * Scale(header), c1, c2, h))
            <==> Down(c1) + Down(c2) <= 0x6000_0400 && Up(c1) + Up(c2) <= 0x63ff_fbff
  {
    if Down(c1) + Down(c2) <= 0x6000_0400 && Up(c1) + Up(c2) <= 0x63ff_fbff {
      forall nibble: int, header: Byte, h: History | -8 <= nibble <= 7 && IsHistory(h)
        ensures Fits(nibble * Scale(header), c1, c2, h)
      {
        ScaledNibble(nibble, header);
        PullBounds(c1, h.yn1);
        PullBounds(c2, h.yn2);
        PullsFit(nibble * Scale(header), c1 * h.yn1, c2 * h.yn2, c1, c2);
      }
    } else {
      var header: Byte := 15;
      LargestScale();
      var low, high := History(Lowest(c1), Lowest(c2)), History(Highest(c1), Highest(c2));
      assert !Fits(-8 * Scale(header), c1, c2, low) || !Fits(7 * Scale(header), c1, c2, high);
    }
  }

  lemma PullsFit(xn: int, p1: int, p2: int, c1: int, c2: int)
    requires -0x4_0000 <= xn <= 0x3_8000 && -Down(c1) <= p1 <= Up(c1) && -Down(c2) <= p2 <= Up(c2)
    requires Down(c1) + Down(c2) <= 0x6000_0400 && Up(c1) + Up(c2) <= 0x63ff_fbff
    ensures IsS32(xn * 2048) && IsS32(xn * 2048 + 0x400) && IsS32(p1) && IsS32(p2)
    ensures IsS32(xn * 2048 + 0x400 + p1) && IsS32(xn * 2048 + 0x400 + p1 + p2)
  {
    assert Down(c1) >= 0 && Down(c2) >= 0 && Up(c1) >= 0 && Up(c2) >= 0;
  }

  // In particular with coefficients whose sizes add up to at most 49152.
  lemma StaysInRange(nibble: int, header: Byte, c1: int, c2: int, h: History)
    requires -8 <= nibble <= 7 && IsHistory(h) && Abs(c1) + Abs(c2) <= 49152
    ensures Fits(nibble * Scale(header), c1, c2, h)
  {
    BoundIsSharp(c1, c2);
  }

  /* ---------- The decoder of the source ---------- */

  class AdpcmState {
    var yn1: int
    var yn2: int

    constructor (yn1: int, yn2: int)
      ensures this.yn1 == yn1 && this.yn2 == yn2
    {
      this.yn1, this.yn2 := yn1, yn2;
    }
  }

  // The samples come in pairs, so an odd count decodes one more.
  function Even(n: nat): (r: nat)
    ensures n <= r <= n + 1 && r % 2 == 0
  {
    if n % 2 == 0 then n else n + 1
  }

  // Sample `i` of frame `f`.
  lemma InFrame(f: nat, i: nat)
    requires i < 14
    ensures HeaderAt(14 * f + i) == 8 * f && ByteAt(14 * f + i) == 8 * f + 1 + i / 2 && (14 * f + i) % 2 == i % 2
  {
    FrameShift(f, i);
  }

  lemma {:induction false} PairInByte(n: nat)
    requires n % 2 == 0
    ensures ByteAt(n + 1) == ByteAt(n)
  {
    if n >= 14 {
      PairInByte(n - 14);
    }
  }

  lemma EvenNeeds(n: nat)
    ensures Needed(Even(n)) == Needed(n)
  {
    if n % 2 == 1 {
      PairInByte(n - 1);
    }
  }

  lemma OneMore(data: seq<Byte>, n: nat, coeff: seq<int>, h: History)
    requires Needed(n + 1) <= |data| && |coeff| == 16
    ensures Needed(n) <= |data| && ByteAt(n) < |data|
    ensures var d, c := Samples(data, n, coeff, h), CodeAt(data, n);
            var v := Filter(c.nibble, c.header, coeff, d.h);
            Samples(data, n + 1, coeff, h) == Decoded(d.out + [v], History(v, d.h.yn1))
  {
    NeededGrows(n, n + 1);
    assert Codes(data, n + 1)[..n] == Codes(data, n);
  }

  /* ---------- The filter law ---------- */

  const SIGNED_NIBBLES: seq<int> := [0, 1, 2, 3, 4, 5, 6, 7, -8, -7, -6, -5, -4, -3, -2, -1]

  const SCALES: seq<int> := [1, 2, 4, 8, 16, 32, 64, 128, 256, 512, 1024, 2048, 4096, 8192, 16384, 32768]

  // In 11-bit fixed point `sum` is `v`, rounded down and saturated to 16 bits.
  predicate Saturates(sum: int, v: int) {
    if sum < -32768 * 2048 then v == -32768
    else if sum >= 32768 * 2048 then v == 32767
    else v * 2048 <= sum < (v + 1) * 2048
  }

  // Sample `k` is `v`, when `y1` and `y2` are the two samples before it.
  predicate ObeysFilter(data: seq<Byte>, coeff: seq<int>, k: nat, y1: int, y2: int, v: int)
    requires |coeff| == 16
  {
    var f, r := k / 14, k % 14;
    8 * f + 1 + r / 2 < |data| &&
    var header, b := data[8 * f], data[8 * f + 1 + r / 2];
    var p, nibble := header / 16 % 8, if r % 2 == 0 then b / 16 else b % 16;
    Saturates(SIGNED_NIBBLES[nibble] * SCALES[header % 16] * 2048 + 1024 + coeff[2 * p] * y1 + coeff[2 * p + 1] * y2, v)
  }

  lemma ScaleIs(e: nat)
    requires e < 16
    ensures Pow2(e) == SCALES[e]
  {
    if e > 0 {
      ScaleIs(e - 1);
    }
  }

  lemma SignedIs(nibble: nat)
    requires nibble < 16
    ensures Signed(nibble) == SIGNED_NIBBLES[nibble]
  {
  }

  lemma ClampSaturates(sum: int)
    ensures Saturates(sum, Clamp16(sum / 2048))
  {
  }

  lemma FilterObeys(data: seq<Byte>, coeff: seq<int>, k: nat, h: History)
    requires |coeff| == 16 && ByteAt(k) < |data|
    ensures ObeysFilter(data, coeff, k, h.yn1, h.yn2, Filter(CodeAt(data, k).nibble, CodeAt(data, k).header, coeff, h))
  {
    var f, r := k / 14, k % 14;
    assert k == 14 * f + r;
    InFrame(f, r);
    var header, b := data[8 * f], data[8 * f + 1 + r / 2];
    var nibble := if r % 2 == 0 then b / 16 else b % 16;
    SignedIs(nibble);
    ScaleIs(header % 16);
    ClampSaturates(Accumulator(SIGNED_NIBBLES[nibble] * SCALES[header % 16], Coeff(coeff, header, 0), Coeff(coeff, header, 1), h));
  }

  // The samples before sample `k`: those decoded, and the carried history behind them.
  function SampleBefore(out: seq<int>, h: History, k: nat, back: nat): int
    requires k <= |out| && 1 <= back <= 2
  {
    if k >= back then out[k - back] else if k + 1 == back then h.yn1 else h.yn2
  }

  lemma {:induction false} SampleLaw(data: seq<Byte>, n: nat, coeff: seq<int>, h: History)
    requires Needed(n) <= |data| && |coeff| == 16
    ensures var out := Samples(data, n, coeff, h).out;
            && (forall k :: 0 <= k < n ==> ObeysFilter(data, coeff, k, SampleBefore(out, h, k, 1), SampleBefore(out, h, k, 2), out[k]))
            && Samples(data, n, coeff, h).h == History(SampleBefore(out, h, n, 1), SampleBefore(out, h, n, 2))
  {
    if n > 0 {
      OneMore(data, n - 1, coeff, h);
      SampleLaw(data, n - 1, coeff, h);
      FilterObeys(data, coeff, n - 1, Samples(data, n - 1, coeff, h).h);
    }
  }

  // The same for a result of both channels.
  ghost predicate ObeysFilters(data: seq<Byte>, coeff: seq<int>, h: History, ret: seq<Stereo>)
    requires |coeff| == 16
  {
    forall k :: 0 <= k < |ret| ==>
      && ret[k].left == ret[k].right
      && ObeysFilter(data, coeff, k, if k >= 1 then ret[k - 1].left else h.yn1,
                     if k >= 2 then ret[k - 2].left else if k == 1 then h.yn1 else h.yn2, ret[k].left)
  }

  lemma FilledObeys(data: seq<Byte>, n: nat, coeff: seq<int>, h: History, ret: seq<Stereo>)
    requires Needed(n) <= |data| && |coeff| == 16 && |ret| == n && Filled(ret, Samples(data, n, coeff, h).out)
    ensures ObeysFilters(data, coeff, h, ret)
    ensures n >= 2 ==> Samples(data, n, coeff, h).h == History(ret[n - 1].left, ret[n - 2].left)
  {
    SampleLaw(data, n, coeff, h);
    var out := Samples(data, n, coeff, h).out;
    forall k | 0 <= k < n
      ensures ObeysFilter(data, coeff, k, if k >= 1 then ret[k - 1].left else h.yn1,
                          if k >= 2 then ret[k - 2].left else if k == 1 then h.yn1 else h.yn2, ret[k].left)
    {
      assert ObeysFilter(data, coeff, k, SampleBefore(out, h, k, 1), SampleBefore(out, h, k, 2), out[k]);
    }
  }

  // What has been decoded into the result so far.
  ghost predicate Filled(ret: seq<Stereo>, out: seq<int>) {
    |out| <= |ret| && forall k :: 0 <= k < |out| ==> ret[k] == Stereo(out[k], out[k])
  }

  // One sample: filter, clamp, advance the feedback.
  method DecodeSample(nibble: int, header: Byte, coeff: seq<int>, yn1: int, yn2: int) returns (val: int, yn1': int, yn2': int)
    requires |coeff| == 16
    ensures val == Filter(nibble, header, coeff, History(yn1, yn2)) && yn1' == val && yn2' == yn1
  {
    var xn := nibble * Scale(header);
    var coef1 := coeff[header / 16 % 8 * 2];
    var coef2 := coeff[header / 16 % 8 * 2 + 1];
    val := Clamp16((xn * 2048 + 0x400 + coef1 * yn1 + coef2 * yn2) / 2048);
    yn2' := yn1;
    yn1' := val;
  }

  // The two codes of one byte.
  lemma PairCodes(data: seq<Byte>, f: nat, i: nat, n: nat)
    requires i < 14 && i % 2 == 0 && n == 14 * f + i && Needed(n + 2) <= |data|
    ensures ByteAt(n) < |data| && ByteAt(n + 1) < |data| && 8 * f + 1 + i / 2 < |data|
    ensures CodeAt(data, n) == Code(Signed(data[8 * f + 1 + i / 2] / 16), data[8 * f])
    ensures CodeAt(data, n + 1) == Code(Signed(data[8 * f + 1 + i / 2] % 16), data[8 * f])
  {
    InFrame(f, i);
    InFrame(f, i + 1);
  }

  // The two samples of one byte.
  lemma TwoMore(data: seq<Byte>, n: nat, coeff: seq<int>, h: History)
    requires Needed(n + 2) <= |data| && |coeff| == 16
    ensures Needed(n) <= |data| && ByteAt(n) < |data| && ByteAt(n + 1) < |data|
    ensures var d, c1, c2 := Samples(data, n, coeff, h), CodeAt(data, n), CodeAt(data, n + 1);
            var v1 := Filter(c1.nibble, c1.header, coeff, d.h);
            var v2 := Filter(c2.nibble, c2.header, coeff, History(v1, d.h.yn1));
            Samples(data, n + 2, coeff, h) == Decoded(d.out + [v1, v2], History(v2, v1))
  {
    OneMore(data, n + 1, coeff, h);
    OneMore(data, n, coeff, h);
    var out := Samples(data, n, coeff, h).out;
    assert forall v1, v2 :: out + [v1] + [v2] == out + [v1, v2];
  }

  // The two samples of one byte, written behind what has been decoded.
  method DecodePair(b: Byte, header: Byte, coeff: seq<int>, n: nat, ret: array<Stereo>, yn1: int, yn2: int, ghost out: seq<int>)
    returns (sample1: int, sample2: int)
    requires |coeff| == 16 && |out| == n && n + 2 <= ret.Length && Filled(ret[..], out)
    modifies ret
    ensures sample1 == Filter(Signed(b / 16), header, coeff, History(yn1, yn2))
    ensures sample2 == Filter(Signed(b % 16), header, coeff, History(sample1, yn1))
    ensures Filled(ret[..], out + [sample1, sample2])
  {
    var yn1', yn2';
    sample1, yn1', yn2' := DecodeSample(Signed(b / 16), header, coeff, yn1, yn2);
    ret[n] := Stereo(sample1, sample1);
    sample2, yn1', yn2' := DecodeSample(Signed(b % 16), header, coeff, yn1', yn2');
    ret[n + 1] := Stereo(sample2, sample2);
  }

  // How far the decoder has come after frame `framei`.
  function FrameEnd(framei: nat, count: nat): nat {
    if 14 * framei + 14 <= count then 14 * framei + 14 else Even(count)
  }

  lemma PairFits(framei: nat, i: nat, j: nat, count: nat)
    requires i == 2 * j && 14 * framei + i < count
    ensures i % 2 == 0 && 14 * framei + i + 2 <= Even(count)
  {
    assert 14 * framei + i == 2 * (7 * framei + j);
  }

  lemma FrameDone(framei: nat, i: nat, j: nat, count: nat)
    requires i == 2 * j && j <= 7 && 14 * framei + i <= Even(count) && (i == 14 || 14 * framei + i >= count)
    ensures 14 * framei + i == FrameEnd(framei, count)
  {
    assert 14 * framei + i == 2 * (7 * framei + j);
  }

  // What the decoder has done after `n` samples.
  ghost predicate Reached(data: seq<Byte>, n: nat, coeff: seq<int>, h: History, ret: seq<Stereo>, yn1: int, yn2: int)
    requires |coeff| == 16
  {
    Needed(n) <= |data| && var d := Samples(data, n, coeff, h);
    Filled(ret, d.out) && d.h == History(yn1, yn2)
  }

  method DecodeByte(data: seq<Byte>, coeff: seq<int>, framei: nat, i: nat, n: nat, ret: array<Stereo>, yn1: int, yn2: int, ghost h: History)
    returns (yn1': int, yn2': int)
    requires i < 14 && i % 2 == 0 && n == 14 * framei + i && |coeff| == 16
    requires Needed(n + 2) <= |data| && n + 2 <= ret.Length
    requires Reached(data, n, coeff, h, ret[..], yn1, yn2)
    modifies ret
    ensures Reached(data, n + 2, coeff, h, ret[..], yn1', yn2')
  {
    PairCodes(data, framei, i, n);
    TwoMore(data, n, coeff, h);
    ghost var out := Samples(data, n, coeff, h).out;
    var b, header := data[8 * framei + 1 + i / 2], data[8 * framei];
    yn2', yn1' := DecodePair(b, header, coeff, n, ret, yn1, yn2, out);
  }

  method DecodeNext(data: seq<Byte>, count: nat, coeff: seq<int>, framei: nat, i: nat, ghost j: nat, ret: array<Stereo>, yn1: int, yn2: int, ghost h: History)
    returns (yn1': int, yn2': int)
    requires |coeff| == 16 && ret.Length == Even(count) && Needed(Even(count)) <= |data|
    requires i == 2 * j && i < 14 && 14 * framei + i < count && Reached(data, 14 * framei + i, coeff, h, ret[..], yn1, yn2)
    modifies ret
    ensures 14 * framei + i + 2 <= Even(count) && Reached(data, 14 * framei + i + 2, coeff, h, ret[..], yn1', yn2')
  {
    PairFits(framei, i, j, count);
    NeededGrows(14 * framei + i + 2, Even(count));
    yn1', yn2' := DecodeByte(data, coeff, framei, i, 14 * framei + i, ret, yn1, yn2, h);
  }

  method DecodeFrame(data: seq<Byte>, count: nat, coeff: seq<int>, framei: nat, ret: array<Stereo>, yn1: int, yn2: int, ghost h: History)
    returns (yn1': int, yn2': int, outputi: nat)
    requires |coeff| == 16 && 14 * framei < count && ret.Length == Even(count) && Needed(count) <= |data|
    requires Reached(data, 14 * framei, coeff, h, ret[..], yn1, yn2)
    modifies ret
    ensures outputi == FrameEnd(framei, count)
    ensures Reached(data, outputi, coeff, h, ret[..], yn1', yn2')
  {
    EvenNeeds(count);
    yn1', yn2' := yn1, yn2;
    outputi := 14 * framei;
    var i := 0;
    ghost var j := 0;
    while i < 14 && outputi < count
      invariant 0 <= j <= 7 && i == 2 * j && outputi == 14 * framei + i <= Even(count)
      invariant Reached(data, outputi, coeff, h, ret[..], yn1', yn2')
    {
      yn1', yn2' := DecodeNext(data, count, coeff, framei, i, j, ret, yn1', yn2', h);
      outputi := outputi + 2;
      i := i + 2;
      j := j + 1;
    }
    FrameDone(framei, i, j, count);
  }

  // How far the decoder has come before frame `framei`.
  function FrameStart(framei: nat, count: nat): nat {
    if 14 * framei <= count then 14 * framei else Even(count)
  }

  lemma FrameBounds(framei: nat, count: nat)
    ensures framei < (count + 13) / 14 <==> 14 * framei < count
    ensures framei == (count + 13) / 14 ==> FrameStart(framei, count) == Even(count)
    ensures 14 * framei < count ==> FrameEnd(framei, count) == FrameStart(framei + 1, count)
  {
    FramesNeeded(framei, count);
    EvenFrames(framei, count);
  }

  lemma EvenFrames(framei: nat, count: nat)
    ensures 14 * framei == count ==> Even(count) == count
    ensures 14 * framei + 14 == count ==> Even(count) == count
  {
    assert 14 * framei == 2 * (7 * framei) && 14 * framei + 14 == 2 * (7 * framei + 7);
  }

  lemma FramesNeeded(framei: nat, count: nat)
    ensures framei < (count + 13) / 14 <==> 14 * framei < count
    ensures framei == (count + 13) / 14 ==> count <= 14 * framei
  {
    var q, r := (count + 13) / 14, (count + 13) % 14;
    assert count + 13 == 14 * q + r;
  }

  method DecodeFrames(data: seq<Byte>, count: nat, coeff: seq<int>, ret: array<Stereo>, yn1: int, yn2: int, ghost h: History)
    returns (yn1': int, yn2': int)
    requires |coeff| == 16 && ret.Length == Even(count) && Needed(count) <= |data| && h == History(yn1, yn2)
    modifies ret
    ensures Reached(data, Even(count), coeff, h, ret[..], yn1', yn2')
  {
    yn1', yn2' := yn1, yn2;
    var numFrames := (count + 13) / 14;
    ghost var n := 0;
    var framei := 0;
    while framei < numFrames
      invariant 0 <= framei <= numFrames && n == FrameStart(framei, count)
      invariant Reached(data, n, coeff, h, ret[..], yn1', yn2')
    {
      FrameBounds(framei, count);
      yn1', yn2', n := DecodeFrame(data, count, coeff, framei, ret, yn1', yn2', h);
      framei := framei + 1;
    }
    FrameBounds(framei, count);
  }

  // Decodes `count` samples into an even-sized result and carries the history on.
  method DecodeADPCM(data: seq<Byte>, count: nat, coeff: seq<int>, state: AdpcmState) returns (ret: array<Stereo>)
    requires |coeff| == 16 && Needed(count) <= |data|
    modifies state
    ensures fresh(ret) && ret.Length == Even(count) && Needed(Even(count)) <= |data|
    ensures var d := Samples(data, Even(count), coeff, History(old(state.yn1), old(state.yn2)));
            && Filled(ret[..], d.out)
            && History(state.yn1, state.yn2) == d.h
    ensures ObeysFilters(data, coeff, History(old(state.yn1), old(state.yn2)), ret[..])
    ensures count > 0 ==> state.yn1 == ret[ret.Length - 1].left && state.yn2 == ret[ret.Length - 2].left
    ensures count == 0 ==> state.yn1 == old(state.yn1) && state.yn2 == old(state.yn2)
  {
    EvenNeeds(count);
    ret := new Stereo[Even(count)](_ => Stereo(0, 0));
    ghost var h := History(state.yn1, state.yn2);
    var yn1, yn2 := state.yn1, state.yn2;
    yn1, yn2 := DecodeFrames(data, count, coeff, ret, yn1, yn2, h);
    FilledObeys(data, Even(count), coeff, h, ret[..]);
    state.yn1 := yn1;
    state.yn2 := yn2;
  }
}
