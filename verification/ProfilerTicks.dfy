/**
 The packed log entries of the profiler: two bits of type, fourteen of timer, and the low 48 bits
 of a tick counter, with the difference of two ticks that survives the counter's wrap-around.
 */
module ProfilerTicks {

  type Entry = e: int | 0 <= e < 0x1_0000_0000_0000_0000

  const LOG_LEAVE := 0
  const LOG_ENTER := 1
  const LOG_META := 2
  const LOG_GPU_EXTRA := 3

  // The three fields do not overlap, so or-ing them is adding them.
  function MakeLogIndex(begin: nat, token: nat, tick: int): (e: Entry)
    requires begin < 4
  {
    begin * 0x4000_0000_0000_0000 + token % 0x4000 * 0x1_0000_0000_0000 + tick % 0x1_0000_0000_0000
  }

  function LogType(e: Entry): (t: nat) {
    e / 0x4000_0000_0000_0000 % 4
  }

  function LogTimerIndex(e: Entry): (t: nat)
    ensures t < 0x4000
  {
    e / 0x1_0000_0000_0000 % 0x4000
  }

  function LogGetTick(e: Entry): (t: nat)
    ensures t < 0x1_0000_0000_0000
  {
    e % 0x1_0000_0000_0000
  }

  // Packing loses nothing but the high bits of the tick.
  lemma Unpack(begin: nat, token: nat, tick: int)
    requires begin < 4
    ensures var e := MakeLogIndex(begin, token, tick);
            LogType(e) == begin && LogTimerIndex(e) == token % 0x4000 && LogGetTick(e) == tick % 0x1_0000_0000_0000
  {
    UnpackFields(begin, token % 0x4000, tick % 0x1_0000_0000_0000);
  }

  lemma UnpackFields(b: nat, t: nat, k: nat)
    requires b < 4 && t < 0x4000 && k < 0x1_0000_0000_0000
    ensures var e := b * 0x4000_0000_0000_0000 + t * 0x1_0000_0000_0000 + k;
            && e / 0x4000_0000_0000_0000 % 4 == b
            && e / 0x1_0000_0000_0000 % 0x4000 == t
            && e % 0x1_0000_0000_0000 == k
  {
    var e := b * 0x4000_0000_0000_0000 + t * 0x1_0000_0000_0000 + k;
    assert e / 0x1_0000_0000_0000 == b * 0x4000 + t;
  }

  // What a 64-bit register keeps, and how a signed one reads it.
  function Wrap64(x: int): (r: nat)
    ensures r < 0x1_0000_0000_0000_0000
  {
    x % 0x1_0000_0000_0000_0000
  }

  function Signed64(x: nat): int {
    if x < 0x8000_0000_0000_0000 then x else x - 0x1_0000_0000_0000_0000
  }

  // Both ticks are moved to the top of the word, subtracted there, and moved back with the sign.
  function LogTickDifference(start: Entry, end: Entry): (d: int) {
    Signed64(Wrap64(Wrap64(end * 0x1_0000) - Wrap64(start * 0x1_0000))) / 0x1_0000
  }

  lemma TickOnTop(e: Entry)
    ensures Wrap64(e * 0x1_0000) == LogGetTick(e) * 0x1_0000
  {
    var q, k := e / 0x1_0000_0000_0000, LogGetTick(e);
    assert e * 0x1_0000 == q * 0x1_0000_0000_0000_0000 + k * 0x1_0000;
  }

  // The difference is the one number between -2^47 and 2^47 that the two tick fields allow.
  lemma DifferenceOfFields(start: Entry, end: Entry)
    ensures var k := LogGetTick(end) - LogGetTick(start);
            LogTickDifference(start, end) ==
              (if k < -0x8000_0000_0000 then k + 0x1_0000_0000_0000 else if k >= 0x8000_0000_0000 then k - 0x1_0000_0000_0000 else k)
  {
    TickOnTop(start);
    TickOnTop(end);
    SignedShift(LogGetTick(end) - LogGetTick(start));
  }

  lemma SignedShift(k: int)
    requires -0x1_0000_0000_0000 < k < 0x1_0000_0000_0000
    ensures Signed64(Wrap64(k * 0x1_0000)) / 0x1_0000 ==
              (if k < -0x8000_0000_0000 then k + 0x1_0000_0000_0000 else if k >= 0x8000_0000_0000 then k - 0x1_0000_0000_0000 else k)
  {
    assert Wrap64(k * 0x1_0000) == if k < 0 then (k + 0x1_0000_0000_0000) * 0x1_0000 else k * 0x1_0000;
  }

  // For entries packed from true ticks the difference is the true one exactly while the ticks
  // lie less than half the counter's period apart.
  lemma DifferenceIsExact(b1: nat, t1: nat, tick1: int, b2: nat, t2: nat, tick2: int)
    requires b1 < 4 && b2 < 4
    ensures LogTickDifference(MakeLogIndex(b1, t1, tick1), MakeLogIndex(b2, t2, tick2)) == tick2 - tick1
            <==> -0x8000_0000_0000 <= tick2 - tick1 < 0x8000_0000_0000
  {
    var start, end := MakeLogIndex(b1, t1, tick1), MakeLogIndex(b2, t2, tick2);
    Unpack(b1, t1, tick1);
    Unpack(b2, t2, tick2);
    DifferenceOfFields(start, end);
    FieldsOfTicks(tick1, tick2, LogTickDifference(start, end));
  }

  lemma FieldsOfTicks(tick1: int, tick2: int, d: int)
    requires var k := tick2 % 0x1_0000_0000_0000 - tick1 % 0x1_0000_0000_0000;
             d == if k < -0x8000_0000_0000 then k + 0x1_0000_0000_0000 else if k >= 0x8000_0000_0000 then k - 0x1_0000_0000_0000 else k
    ensures d == tick2 - tick1 <==> -0x8000_0000_0000 <= tick2 - tick1 < 0x8000_0000_0000
  {
    var q1, q2 := tick1 / 0x1_0000_0000_0000, tick2 / 0x1_0000_0000_0000;
    assert tick2 - tick1 == (q2 - q1) * 0x1_0000_0000_0000 + (tick2 % 0x1_0000_0000_0000 - tick1 % 0x1_0000_0000_0000);
  }
}
