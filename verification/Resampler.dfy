/**
 The streaming resampler: state carried from call to call, against one batch over the whole
 input.  Positions are fixed point with 24 fractional bits; `step` is the rate in that unit.
 */
module Resampler {
  import opened Common

  const SCALE := 0x100_0000

  // The interpolation at a fractional position over three adjacent samples.
  type Kernel = (nat, Stereo, Stereo, Stereo) -> Stereo

  /* ---------- One call, on values ---------- */

  // What a call produces from `buf`, its two historical samples followed by its input.
  datatype Call = Call(out: seq<Stereo>, index: nat, position: nat)

  function Sample(x: seq<Stereo>, position: nat, fn: Kernel): Stereo
    requires position / SCALE + 2 < |x|
  {
    var i := position / SCALE;
    fn(position % SCALE, x[i], x[i + 1], x[i + 2])
  }

  // `index` is the input index reached so far.
  function Steps(buf: seq<Stereo>, index: nat, position: nat, step: nat, room: nat, fn: Kernel): (r: Call)
    requires |buf| >= 2 && index + 2 <= |buf| && index * SCALE <= position
    ensures r.index + 2 <= |buf| && r.index * SCALE <= r.position && |r.out| <= room
    decreases room
  {
    if room == 0 then Call([], index, position)
    else if position / SCALE + 2 >= |buf| then Call([], |buf| - 2, position)
    else
      var r := Steps(buf, position / SCALE, position + step, step, room - 1, fn);
      Call([Sample(buf, position, fn)] + r.out, r.index, r.position)
  }

  /* ---------- The state carried across calls ---------- */

  // The historical samples with the input not yet used, and the position relative to them.
  datatype Stream = Stream(buf: seq<Stereo>, position: nat)

  // More input arrives, then one call with room for `room` output samples; without input it does nothing.
  function Next(s: Stream, more: seq<Stereo>, step: nat, room: nat, fn: Kernel): (r: (Stream, seq<Stereo>))
    requires |s.buf| >= 2
    ensures |r.0.buf| >= 2
  {
    var buf := s.buf + more;
    if |buf| == 2 then (s, []) else
    var c := Steps(buf, 0, s.position, step, room, fn);
    (Stream(buf[c.index..], c.position - c.index * SCALE), c.out)
  }

  // A run of calls, each with the input that arrives before it and its room for output.
  datatype Request = Request(more: seq<Stereo>, room: nat)

  function RunAll(s: Stream, calls: seq<Request>, step: nat, fn: Kernel): (r: (Stream, seq<Stereo>))
    requires |s.buf| >= 2
    ensures |r.0.buf| >= 2
    decreases |calls|
  {
    if calls == [] then (s, []) else
    var first := Next(s, calls[0].more, step, calls[0].room, fn);
    var rest := RunAll(first.0, calls[1..], step, fn);
    (rest.0, first.1 + rest.1)
  }

  function AllInput(calls: seq<Request>): seq<Stereo> {
    if calls == [] then [] else calls[0].more + AllInput(calls[1..])
  }

  /* ---------- The batch ---------- */

  // `out` is the kernel at the positions p, p + step, p + 2 * step, ... over all of `x`.
  ghost predicate IsBatch(x: seq<Stereo>, p: nat, step: nat, fn: Kernel, out: seq<Stereo>)
    decreases |out|
  {
    out != [] ==> p / SCALE + 2 < |x| && out[0] == Sample(x, p, fn) && IsBatch(x, p + step, step, fn, out[1..])
  }

  // The position after `n` output samples.
  function Reached(p: nat, step: nat, n: nat): nat
    decreases n
  {
    if n == 0 then p else Reached(p + step, step, n - 1)
  }

  lemma {:induction false} ReachedIs(p: nat, step: nat, n: nat)
    ensures Reached(p, step, n) == p + n * step
    decreases n
  {
    if n > 0 {
      ReachedIs(p + step, step, n - 1);
      assert n * step == step + (n - 1) * step;
    }
  }

  // Output sample k is the kernel at absolute position p + k * step.
  lemma {:induction false} BatchAt(x: seq<Stereo>, p: nat, step: nat, fn: Kernel, out: seq<Stereo>, k: nat)
    requires IsBatch(x, p, step, fn, out) && k < |out|
    ensures (p + k * step) / SCALE + 2 < |x| && out[k] == Sample(x, p + k * step, fn)
    decreases k
  {
    if k > 0 {
      BatchAt(x, p + step, step, fn, out[1..], k - 1);
      assert p + step + (k - 1) * step == p + k * step;
    }
  }

  lemma {:induction false} BatchAppend(x: seq<Stereo>, p: nat, step: nat, fn: Kernel, a: seq<Stereo>, b: seq<Stereo>)
    requires IsBatch(x, p, step, fn, a) && IsBatch(x, Reached(p, step, |a|), step, fn, b)
    ensures IsBatch(x, p, step, fn, a + b) && Reached(Reached(p, step, |a|), step, |b|) == Reached(p, step, |a + b|)
    decreases |a|
  {
    if a == [] {
      assert a + b == b;
    } else {
      BatchAppend(x, p + step, step, fn, a[1..], b);
      assert (a + b)[1..] == a[1..] + b;
    }
  }

  // A batch over a prefix is a batch over the whole.
  lemma {:induction false} BatchGrows(x: seq<Stereo>, more: seq<Stereo>, p: nat, step: nat, fn: Kernel, out: seq<Stereo>)
    requires IsBatch(x, p, step, fn, out)
    ensures IsBatch(x + more, p, step, fn, out)
    decreases |out|
  {
    if out != [] {
      BatchGrows(x, more, p + step, step, fn, out[1..]);
    }
  }

  lemma DivUp(p: nat, c: nat)
    ensures (c * SCALE + p) / SCALE == c + p / SCALE && (c * SCALE + p) % SCALE == p % SCALE
  {
  }

  // A batch over a buffer that starts at index `c` of the whole.
  lemma {:induction false} BatchShift(x: seq<Stereo>, c: nat, p: nat, step: nat, fn: Kernel, out: seq<Stereo>)
    requires c <= |x| && IsBatch(x[c..], p, step, fn, out)
    ensures IsBatch(x, c * SCALE + p, step, fn, out) && Reached(c * SCALE + p, step, |out|) == c * SCALE + Reached(p, step, |out|)
    decreases |out|
  {
    if out != [] {
      DivUp(p, c);
      BatchShift(x, c, p + step, step, fn, out[1..]);
    }
  }

  lemma {:induction false} StepsBatch(buf: seq<Stereo>, index: nat, position: nat, step: nat, room: nat, fn: Kernel)
    requires |buf| >= 2 && index + 2 <= |buf| && index * SCALE <= position
    ensures var r := Steps(buf, index, position, step, room, fn);
            && IsBatch(buf, position, step, fn, r.out)
            && r.position == Reached(position, step, |r.out|)
            && (|r.out| < room ==> r.position / SCALE + 2 >= |buf|)
    decreases room
  {
    if room > 0 && position / SCALE + 2 < |buf| {
      StepsBatch(buf, position / SCALE, position + step, step, room - 1, fn);
      var rest := Steps(buf, position / SCALE, position + step, step, room - 1, fn);
      assert ([Sample(buf, position, fn)] + rest.out)[1..] == rest.out;
    }
  }

  /* ---------- Streaming refines the batch ---------- */

  // After output of `out`, the stream holds exactly the whole input `x` from index `c` on, and
  // its position is that of the next output sample: nothing is lost, nothing is repeated.
  ghost predicate InStep(s: Stream, x: seq<Stereo>, c: nat, p0: nat, step: nat, fn: Kernel, out: seq<Stereo>) {
    && c + 2 <= |x| && s.buf == x[c..]
    && IsBatch(x, p0, step, fn, out)
    && c * SCALE + s.position == Reached(p0, step, |out|)
  }

  lemma NextInStep(s: Stream, x: seq<Stereo>, c: nat, p0: nat, step: nat, fn: Kernel, out: seq<Stereo>, more: seq<Stereo>, room: nat)
    returns (c': nat)
    requires InStep(s, x, c, p0, step, fn, out)
    ensures var r := Next(s, more, step, room, fn);
            && InStep(r.0, x + more, c', p0, step, fn, out + r.1)
            && (|r.1| < room && (|s.buf| > 2 || more != []) ==> r.0.position / SCALE + 2 >= |r.0.buf|)
  {
    var x', buf := x + more, s.buf + more;
    assert buf == x'[c..];
    BatchGrows(x, more, p0, step, fn, out);
    if |buf| == 2 {
      c' := c;
      assert more == [] && x' == x && out + [] == out;
    } else {
      var call := Steps(buf, 0, s.position, step, room, fn);
      StepsBatch(buf, 0, s.position, step, room, fn);
      ContinueBatch(x', c, s.position, p0, step, fn, out, call.out);
      c' := c + call.index;
      assert buf[call.index..] == x'[c'..];
      DivDown(call.position, call.index);
    }
  }

  // The output of a call whose buffer starts at index `c` continues the output so far.
  lemma ContinueBatch(x: seq<Stereo>, c: nat, position: nat, p0: nat, step: nat, fn: Kernel, out: seq<Stereo>, more: seq<Stereo>)
    requires c <= |x| && IsBatch(x, p0, step, fn, out) && c * SCALE + position == Reached(p0, step, |out|)
    requires IsBatch(x[c..], position, step, fn, more)
    ensures IsBatch(x, p0, step, fn, out + more)
    ensures c * SCALE + Reached(position, step, |more|) == Reached(p0, step, |out + more|)
  {
    BatchShift(x, c, position, step, fn, more);
    BatchAppend(x, p0, step, fn, out, more);
  }

  lemma DivDown(p: nat, c: nat)
    requires c * SCALE <= p
    ensures (p - c * SCALE) / SCALE == p / SCALE - c
  {
  }

  lemma {:induction false} RunInStep(s: Stream, x: seq<Stereo>, c: nat, p0: nat, step: nat, fn: Kernel, out: seq<Stereo>, calls: seq<Request>)
    returns (c': nat)
    requires InStep(s, x, c, p0, step, fn, out)
    ensures var r := RunAll(s, calls, step, fn); InStep(r.0, x + AllInput(calls), c', p0, step, fn, out + r.1)
    decreases |calls|
  {
    if calls == [] {
      c' := c;
      assert x + [] == x && out + [] == out;
    } else {
      var first := Next(s, calls[0].more, step, calls[0].room, fn);
      var c1 := NextInStep(s, x, c, p0, step, fn, out, calls[0].more, calls[0].room);
      c' := RunInStep(first.0, x + calls[0].more, c1, p0, step, fn, out + first.1, calls[1..]);
      Regroup(x, calls[0].more, AllInput(calls[1..]));
      Regroup(out, first.1, RunAll(first.0, calls[1..], step, fn).1);
    }
  }

  // However the input is cut into buffers and the output into frames: output sample k is the
  // kernel at absolute position p0 + k * step over the two historical samples followed by all
  // the input, and what the stream holds at the end is the rest of that one sequence.
  lemma StreamingIsBatch(xn2: Stereo, xn1: Stereo, p0: nat, step: nat, fn: Kernel, calls: seq<Request>) returns (c: nat)
    ensures var x, r := [xn2, xn1] + AllInput(calls), RunAll(Stream([xn2, xn1], p0), calls, step, fn);
            && c <= |x| && r.0.buf == x[c..]
            && c * SCALE + r.0.position == p0 + |r.1| * step
            && forall k :: 0 <= k < |r.1| ==>
                 (p0 + k * step) / SCALE + 2 < |x| && r.1[k] == Sample(x, p0 + k * step, fn)
  {
    var x0 := [xn2, xn1];
    c := RunInStep(Stream(x0, p0), x0, 0, p0, step, fn, [], calls);
    var x, r := x0 + AllInput(calls), RunAll(Stream(x0, p0), calls, step, fn);
    assert [] + r.1 == r.1;
    ReachedIs(p0, step, |r.1|);
    BatchIs(x, p0, step, fn, r.1);
  }

  lemma BatchIs(x: seq<Stereo>, p: nat, step: nat, fn: Kernel, out: seq<Stereo>)
    requires IsBatch(x, p, step, fn, out)
    ensures forall k :: 0 <= k < |out| ==> (p + k * step) / SCALE + 2 < |x| && out[k] == Sample(x, p + k * step, fn)
  {
    forall k | 0 <= k < |out|
      ensures (p + k * step) / SCALE + 2 < |x| && out[k] == Sample(x, p + k * step, fn)
    {
      BatchAt(x, p, step, fn, out, k);
    }
  }

  // Input that an earlier call left unused may as well count as arriving now.
  lemma LeftoverIsInput(s: Stream, more: seq<Stereo>, step: nat, room: nat, fn: Kernel)
    requires |s.buf| >= 2
    ensures Next(s, more, step, room, fn) == Next(Stream(s.buf[..2], s.position), s.buf[2..] + more, step, room, fn)
  {
    assert s.buf[..2] + (s.buf[2..] + more) == s.buf + more;
    if |s.buf + more| == 2 {
      assert s.buf[..2] == s.buf;
    }
  }

  /* ---------- The call of the source ---------- */

  class Interpolator {
    var xn1: Stereo
    var xn2: Stereo
    var fposition: nat

    constructor ()
      ensures xn1 == xn2 == Stereo(0, 0) && fposition == 0
    {
      xn1, xn2, fposition := Stereo(0, 0), Stereo(0, 0), 0;
    }

    ghost function StreamWith(input: seq<Stereo>): Stream
      reads this
    {
      Stream([xn2, xn1] + input, fposition)
    }

    // Steps over the input until it is used up or the output is full, and keeps the rest.
    method StepOverSamples(input: seq<Stereo>, step: nat, output: array<Stereo>, outputi: nat, fn: Kernel)
      returns (rest: seq<Stereo>, outputi': nat)
      requires outputi <= output.Length
      modifies this, output
      ensures var r := Next(old(StreamWith([])), input, step, output.Length - outputi, fn);
              && StreamWith(rest) == r.0
              && outputi' == outputi + |r.1|
              && output[..] == Written(old(output[..]), outputi, r.1)
    {
      assert [xn2, xn1] + [] == [xn2, xn1];
      if input == [] {
        rest, outputi' := [], outputi;
        return;
      }
      var buf := [xn2, xn1] + input;
      var position, inputi;
      position, inputi, outputi' := Fill(buf, fposition, step, output, outputi, fn);
      xn2 := buf[inputi];
      xn1 := buf[inputi + 1];
      fposition := position - inputi * SCALE;
      rest := buf[inputi + 2..];
      assert [xn2, xn1] + rest == buf[inputi..];
    }
  }

  // The frame with `out` written from position `i` on.
  function Written(frame: seq<Stereo>, i: nat, out: seq<Stereo>): (r: seq<Stereo>)
    requires i + |out| <= |frame|
    ensures |r| == |frame|
  {
    frame[..i] + out + frame[i + |out|..]
  }

  lemma WriteOne(frame: seq<Stereo>, i: nat, out: seq<Stereo>, v: Stereo)
    requires i + |out| < |frame|
    ensures Written(frame, i, out)[i + |out| := v] == Written(frame, i, out + [v])
  {
  }

  // The loop of the source over a buffer that starts with the historical samples.
  method Fill(buf: seq<Stereo>, fposition: nat, step: nat, output: array<Stereo>, outputi: nat, fn: Kernel)
    returns (position: nat, inputi: nat, outputi': nat)
    requires |buf| >= 2 && outputi <= output.Length
    modifies output
    ensures var call := Steps(buf, 0, fposition, step, output.Length - outputi, fn);
            && position == call.position && inputi == call.index && outputi' == outputi + |call.out|
            && output[..] == Written(old(output[..]), outputi, call.out)
  {
    ghost var frame, done := output[..], [];
    ghost var call := Steps(buf, 0, fposition, step, output.Length - outputi, fn);
    ghost var more := call;
    position, inputi, outputi' := fposition, 0, outputi;
    while outputi' < output.Length
      invariant outputi' == outputi + |done| && outputi' <= output.Length && inputi + 2 <= |buf| && inputi * SCALE <= position
      invariant more == Steps(buf, inputi, position, step, output.Length - outputi', fn)
      invariant done + more.out == call.out && more.index == call.index && more.position == call.position
      invariant output[..] == Written(frame, outputi, done)
    {
      inputi := position / SCALE;
      if inputi + 2 >= |buf| {
        inputi := |buf| - 2;
        break;
      }
      var fraction := position % SCALE;
      var v := fn(fraction, buf[inputi], buf[inputi + 1], buf[inputi + 2]);
      output[outputi'] := v;
      WriteOne(frame, outputi, done, v);
      outputi' := outputi' + 1;
      position := position + step;
      more := Steps(buf, inputi, position, step, output.Length - outputi', fn);
      Regroup(done, [v], more.out);
      done := done + [v];
    }
    assert done + [] == done;
  }
}
