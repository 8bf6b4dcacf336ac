/**
 The replay of a thread's log in a flip: a stack of log slots, a child-tick slot per level, ticks
 and exclusive ticks per timer, and ticks per group.
 */
module ProfilerReplay {
  import opened ProfilerTicks
  import opened ProfilerRing

  const MAX_TIMERS := 1024
  const MAX_GROUPS := 48
  const STACK_MAX := 32

  // `child` holds the child-tick slots 0 to the stack position.
  datatype Replay = Replay(stack: seq<nat>, child: seq<int>, groupPos: seq<nat>,
                           ticks: seq<int>, exclusive: seq<int>, count: seq<int>, groupTicks: seq<int>)

  function Zeros(n: nat): (s: seq<nat>)
    ensures |s| == n && forall i :: 0 <= i < n ==> s[i] == 0
  {
    seq(n, _ => 0)
  }

  const Empty := Replay([], [0], Zeros(MAX_GROUPS), Zeros(MAX_TIMERS), Zeros(MAX_TIMERS), Zeros(MAX_TIMERS), Zeros(MAX_GROUPS))

  ghost predicate Formed(s: Replay) {
    && |s.child| == |s.stack| + 1 && |s.groupPos| == MAX_GROUPS && |s.groupTicks| == MAX_GROUPS
    && |s.ticks| == MAX_TIMERS && |s.exclusive| == MAX_TIMERS && |s.count| == MAX_TIMERS
    && forall g :: 0 <= g < MAX_GROUPS ==> s.groupPos[g] < 256
  }

  // The table from timers to groups.
  ghost predicate IsTable(groups: seq<nat>) {
    |groups| == MAX_TIMERS && forall t :: 0 <= t < MAX_TIMERS ==> groups[t] < MAX_GROUPS
  }

  ghost predicate Known(e: Entry) {
    LogTimerIndex(e) < MAX_TIMERS
  }

  ghost predicate InLog(slots: seq<nat>, n: nat) {
    forall i :: 0 <= i < |slots| ==> slots[i] < n
  }

  function Push(s: Replay, k: nat, g: nat): (s': Replay)
    requires Formed(s) && g < MAX_GROUPS
    ensures Formed(s')
  {
    s.(stack := s.stack + [k], child := s.child + [0], groupPos := s.groupPos[g := (s.groupPos[g] + 1) % 256])
  }

  // A leave of `timer` with `t` ticks since the enter on top of the stack.
  function Pop(s: Replay, timer: nat, g: nat, t: int): (s': Replay)
    requires Formed(s) && g < MAX_GROUPS && timer < MAX_TIMERS && s.stack != []
    ensures Formed(s')
  {
    var n, p := |s.stack|, s.groupPos[g];
    Replay(s.stack[..n - 1], s.child[..n - 1] + [s.child[n - 1] + t],
           if p > 0 then s.groupPos[g := p - 1] else s.groupPos,
           s.ticks[timer := s.ticks[timer] + t],
           s.exclusive[timer := s.exclusive[timer] + (t - s.child[n])],
           s.count[timer := s.count[timer] + 1],
           if p == 1 then s.groupTicks[g := s.groupTicks[g] + t] else s.groupTicks)
  }

  // The entry in slot `k`.
  function Step(s: Replay, log: seq<Entry>, groups: seq<nat>, k: nat): (s': Replay)
    requires Formed(s) && IsTable(groups) && k < |log| && Known(log[k]) && InLog(s.stack, |log|)
    ensures Formed(s') && InLog(s'.stack, |log|)
  {
    var e := log[k];
    var timer := LogTimerIndex(e);
    if LogType(e) == LOG_ENTER then
      Push(s, k, groups[timer])
    else if LogType(e) == LOG_LEAVE && s.stack != [] then
      Pop(s, timer, groups[timer], LogTickDifference(log[s.stack[|s.stack| - 1]], e))
    else
      s
  }

  ghost predicate Readable(log: seq<Entry>, slots: seq<nat>) {
    InLog(slots, |log|) && forall i :: 0 <= i < |slots| ==> Known(log[slots[i]])
  }

  function ReplaySlots(s: Replay, log: seq<Entry>, groups: seq<nat>, slots: seq<nat>): (s': Replay)
    requires Formed(s) && IsTable(groups) && Readable(log, slots) && InLog(s.stack, |log|)
    ensures Formed(s') && InLog(s'.stack, |log|)
  {
    if slots == [] then s else
    Step(ReplaySlots(s, log, groups, slots[..|slots| - 1]), log, groups, slots[|slots| - 1])
  }

  lemma {:induction false} ReplayAppend(s: Replay, log: seq<Entry>, groups: seq<nat>, a: seq<nat>, b: seq<nat>)
    requires Formed(s) && IsTable(groups) && Readable(log, a) && Readable(log, b) && InLog(s.stack, |log|)
    ensures Readable(log, a + b)
    ensures ReplaySlots(s, log, groups, a + b) == ReplaySlots(ReplaySlots(s, log, groups, a), log, groups, b)
    decreases |b|
  {
    if b == [] {
      assert a + b == a;
    } else {
      var init := b[..|b| - 1];
      ReplayAppend(s, log, groups, a, init);
      assert (a + b)[..|a + b| - 1] == a + init;
      assert (a + b)[|a + b| - 1] == b[|b| - 1];
    }
  }

  /* ---------- Conservation of exclusive time ---------- */

  function Sum(s: seq<int>): int {
    if s == [] then 0 else Sum(s[..|s| - 1]) + s[|s| - 1]
  }

  lemma {:induction false} SumUpdate(s: seq<int>, i: nat, d: int)
    requires i < |s|
    ensures Sum(s[i := s[i] + d]) == Sum(s) + d
  {
    var s', init := s[i := s[i] + d], s[..|s| - 1];
    if i == |s| - 1 {
      assert s'[..|s| - 1] == init;
    } else {
      assert s'[..|s| - 1] == init[i := init[i] + d];
      SumUpdate(init, i, d);
    }
  }

  // What the exclusive ticks of all timers exceed the open child-tick slots by.
  function Balance(s: Replay): int {
    Sum(s.exclusive) - Sum(s.child)
  }

  lemma PushBalance(s: Replay, k: nat, g: nat)
    requires Formed(s) && g < MAX_GROUPS
    ensures Balance(Push(s, k, g)) == Balance(s)
  {
    assert (s.child + [0])[..|s.child|] == s.child;
  }

  lemma PopBalance(s: Replay, timer: nat, g: nat, t: int)
    requires Formed(s) && g < MAX_GROUPS && timer < MAX_TIMERS && s.stack != []
    ensures Balance(Pop(s, timer, g, t)) == Balance(s)
  {
    var n := |s.stack|;
    SumUpdate(s.exclusive, timer, t - s.child[n]);
    var rest, kept := s.child[..n - 1], s.child[..n];
    assert (rest + [s.child[n - 1] + t])[..n - 1] == rest;
    assert kept[..n - 1] == rest && kept[n - 1] == s.child[n - 1];
    assert Sum(kept) == Sum(rest) + s.child[n - 1];
    assert Sum(s.child) == Sum(kept) + s.child[n];
  }

  // Whatever the entries are, balanced or not, no exclusive tick is made or lost.
  lemma {:induction false} ExclusiveConserved(s: Replay, log: seq<Entry>, groups: seq<nat>, slots: seq<nat>)
    requires Formed(s) && IsTable(groups) && Readable(log, slots) && InLog(s.stack, |log|)
    ensures Balance(ReplaySlots(s, log, groups, slots)) == Balance(s)
  {
    if slots != [] {
      var init, k := slots[..|slots| - 1], slots[|slots| - 1];
      ExclusiveConserved(s, log, groups, init);
      StepBalance(ReplaySlots(s, log, groups, init), log, groups, k);
    }
  }

  lemma StepBalance(s: Replay, log: seq<Entry>, groups: seq<nat>, k: nat)
    requires Formed(s) && IsTable(groups) && k < |log| && Known(log[k]) && InLog(s.stack, |log|)
    ensures Balance(Step(s, log, groups, k)) == Balance(s)
  {
    var e := log[k];
    var timer := LogTimerIndex(e);
    PushBalance(s, k, groups[timer]);
    if s.stack != [] {
      PopBalance(s, timer, groups[timer], LogTickDifference(log[s.stack[|s.stack| - 1]], e));
    }
  }

  /* ---------- Flips ---------- */

  // What is accumulated over the flips.
  datatype Totals = Totals(ticks: seq<int>, exclusive: seq<int>, count: seq<int>, groupTicks: seq<int>)

  const NoTotals := Totals(Zeros(MAX_TIMERS), Zeros(MAX_TIMERS), Zeros(MAX_TIMERS), Zeros(MAX_GROUPS))

  ghost predicate IsTotals(t: Totals) {
    |t.ticks| == MAX_TIMERS && |t.exclusive| == MAX_TIMERS && |t.count| == MAX_TIMERS && |t.groupTicks| == MAX_GROUPS
  }

  function Plus(a: seq<int>, b: seq<int>): (c: seq<int>)
    requires |a| == |b|
    ensures |c| == |a|
  {
    seq(|a|, i requires 0 <= i < |a| => a[i] + b[i])
  }

  // The counters start every flip at zero.
  function Cleared(s: Replay): (s': Replay)
    requires Formed(s)
    ensures Formed(s') && s'.stack == s.stack
  {
    s.(ticks := Zeros(MAX_TIMERS), exclusive := Zeros(MAX_TIMERS), count := Zeros(MAX_TIMERS), groupTicks := Zeros(MAX_GROUPS))
  }

  function Added(t: Totals, s: Replay): (t': Totals)
    requires IsTotals(t) && Formed(s)
    ensures IsTotals(t')
  {
    Totals(Plus(t.ticks, s.ticks), Plus(t.exclusive, s.exclusive), Plus(t.count, s.count), Plus(t.groupTicks, s.groupTicks))
  }

  // A replay with the totals for its counters.
  function Carry(s: Replay, t: Totals): (s': Replay)
    requires Formed(s) && IsTotals(t)
    ensures Formed(s') && s'.stack == s.stack && s'.child == s.child
  {
    s.(ticks := t.ticks, exclusive := t.exclusive, count := t.count, groupTicks := t.groupTicks)
  }

  function FlipReplay(s: Replay, log: seq<Entry>, groups: seq<nat>, slots: seq<nat>): (s': Replay)
    requires Formed(s) && IsTable(groups) && Readable(log, slots) && InLog(s.stack, |log|)
    ensures Formed(s') && InLog(s'.stack, |log|)
  {
    ReplaySlots(Cleared(s), log, groups, slots)
  }

  lemma PlusUpdate(a: seq<int>, b: seq<int>, i: nat, d: int)
    requires |a| == |b| && i < |a|
    ensures Plus(a, b[i := b[i] + d]) == Plus(a, b)[i := Plus(a, b)[i] + d]
  {
  }

  lemma StepAdds(t: Totals, s: Replay, log: seq<Entry>, groups: seq<nat>, k: nat)
    requires Formed(s) && IsTotals(t) && IsTable(groups) && k < |log| && Known(log[k]) && InLog(s.stack, |log|)
    ensures var s' := Step(s, log, groups, k);
            Step(Carry(s, Added(t, s)), log, groups, k) == Carry(s', Added(t, s'))
  {
    var timer := LogTimerIndex(log[k]);
    if LogType(log[k]) == LOG_LEAVE && s.stack != [] {
      PopAdds(t, s, timer, groups[timer], LogTickDifference(log[s.stack[|s.stack| - 1]], log[k]));
    }
  }

  lemma PopAdds(t: Totals, s: Replay, timer: nat, g: nat, d: int)
    requires Formed(s) && IsTotals(t) && g < MAX_GROUPS && timer < MAX_TIMERS && s.stack != []
    ensures var s' := Pop(s, timer, g, d);
            Pop(Carry(s, Added(t, s)), timer, g, d) == Carry(s', Added(t, s'))
  {
    PlusUpdate(t.ticks, s.ticks, timer, d);
    PlusUpdate(t.exclusive, s.exclusive, timer, d - s.child[|s.stack|]);
    PlusUpdate(t.count, s.count, timer, 1);
    PlusUpdate(t.groupTicks, s.groupTicks, g, d);
  }

  lemma {:induction false} ReplayAdds(t: Totals, s: Replay, log: seq<Entry>, groups: seq<nat>, slots: seq<nat>)
    requires Formed(s) && IsTotals(t) && IsTable(groups) && Readable(log, slots) && InLog(s.stack, |log|)
    ensures var s' := ReplaySlots(s, log, groups, slots);
            ReplaySlots(Carry(s, Added(t, s)), log, groups, slots) == Carry(s', Added(t, s'))
  {
    if slots != [] {
      var init := slots[..|slots| - 1];
      ReplayAdds(t, s, log, groups, init);
      StepAdds(t, ReplaySlots(s, log, groups, init), log, groups, slots[|slots| - 1]);
    }
  }

  // Clearing the counters before a flip and accumulating them after it continues one long replay.
  lemma FlipContinues(t: Totals, s: Replay, log: seq<Entry>, groups: seq<nat>, slots: seq<nat>)
    requires Formed(s) && IsTotals(t) && IsTable(groups) && Readable(log, slots) && InLog(s.stack, |log|)
    ensures var s' := FlipReplay(s, log, groups, slots);
            Carry(s', Added(t, s')) == ReplaySlots(Carry(s, t), log, groups, slots)
  {
    var c := Cleared(s);
    ReplayAdds(t, c, log, groups, slots);
    assert Added(t, c) == t by {
      assert Plus(t.ticks, c.ticks) == t.ticks && Plus(t.exclusive, c.exclusive) == t.exclusive;
      assert Plus(t.count, c.count) == t.count && Plus(t.groupTicks, c.groupTicks) == t.groupTicks;
    }
  }

  // One flip's view of a ring: its slots as they are then, and those that it replays.
  datatype Frame = Frame(log: seq<Entry>, slots: seq<nat>)

  ghost predicate IsFrame(f: Frame, n: nat) {
    |f.log| == n && Readable(f.log, f.slots)
  }

  ghost predicate AreFrames(frames: seq<Frame>, n: nat) {
    forall i :: 0 <= i < |frames| ==> IsFrame(frames[i], n)
  }

  datatype Flips = Flips(s: Replay, t: Totals)

  function NextFlip(r: Flips, f: Frame, groups: seq<nat>): (r': Flips)
    requires Formed(r.s) && IsTotals(r.t) && IsTable(groups) && Readable(f.log, f.slots) && InLog(r.s.stack, |f.log|)
    ensures Formed(r'.s) && IsTotals(r'.t) && InLog(r'.s.stack, |f.log|)
  {
    var s := FlipReplay(r.s, f.log, groups, f.slots);
    Flips(s, Added(r.t, s))
  }

  lemma {:induction false} SumZeros(n: nat)
    ensures Sum(Zeros(n)) == 0
  {
    if n > 0 {
      assert Zeros(n)[..n - 1] == Zeros(n - 1);
      SumZeros(n - 1);
    }
  }

  /* ---------- All threads ---------- */

  // The threads' stacks with the counters that all of them share.
  datatype Pool = Pool(threads: seq<Replay>, t: Totals)

  ghost predicate IsThread(s: Replay, n: nat) {
    Formed(s) && InLog(s.stack, n)
  }

  ghost predicate IsPool(p: Pool, n: nat) {
    IsTotals(p.t) && forall i :: 0 <= i < |p.threads| ==> IsThread(p.threads[i], n)
  }

  function CountersOf(s: Replay): Totals {
    Totals(s.ticks, s.exclusive, s.count, s.groupTicks)
  }

  // One thread after the other adds to the same counters.
  function ReplayThreads(p: Pool, frames: seq<Frame>, groups: seq<nat>, n: nat, k: nat): (q: Pool)
    requires IsPool(p, n) && IsTable(groups) && AreFrames(frames, n) && k <= |frames| == |p.threads|
    ensures IsPool(q, n) && |q.threads| == |p.threads|
  {
    if k == 0 then p else
    ReplayThread(ReplayThreads(p, frames, groups, n, k - 1), frames[k - 1], groups, n, k - 1)
  }

  function ReplayThread(p: Pool, f: Frame, groups: seq<nat>, n: nat, k: nat): (q: Pool)
    requires IsPool(p, n) && IsTable(groups) && IsFrame(f, n) && k < |p.threads|
    ensures IsPool(q, n) && |q.threads| == |p.threads|
  {
    var s := ReplaySlots(Carry(p.threads[k], p.t), f.log, groups, f.slots);
    Pool(p.threads[k := s], CountersOf(s))
  }

  function ChildSums(threads: seq<Replay>): (s: seq<int>)
    ensures |s| == |threads|
  {
    seq(|threads|, i requires 0 <= i < |threads| => Sum(threads[i].child))
  }

  function PoolBalance(p: Pool): int {
    Sum(p.t.exclusive) - Sum(ChildSums(p.threads))
  }

  lemma ThreadConserves(p: Pool, f: Frame, groups: seq<nat>, n: nat, k: nat)
    requires IsPool(p, n) && IsTable(groups) && IsFrame(f, n) && k < |p.threads|
    ensures PoolBalance(ReplayThread(p, f, groups, n, k)) == PoolBalance(p)
  {
    var s0 := Carry(p.threads[k], p.t);
    var s := ReplaySlots(s0, f.log, groups, f.slots);
    ExclusiveConserved(s0, f.log, groups, f.slots);
    var sums, d := ChildSums(p.threads), Sum(s.child) - Sum(s0.child);
    assert ChildSums(p.threads[k := s]) == sums[k := sums[k] + d];
    SumUpdate(sums, k, d);
  }

  lemma {:induction false} ThreadsConserve(p: Pool, frames: seq<Frame>, groups: seq<nat>, n: nat, k: nat)
    requires IsPool(p, n) && IsTable(groups) && AreFrames(frames, n) && k <= |frames| == |p.threads|
    ensures PoolBalance(ReplayThreads(p, frames, groups, n, k)) == PoolBalance(p)
  {
    if k > 0 {
      ThreadsConserve(p, frames, groups, n, k - 1);
      NextConserves(p, frames, groups, n, k - 1);
    }
  }

  lemma NextConserves(p: Pool, frames: seq<Frame>, groups: seq<nat>, n: nat, k: nat)
    requires IsPool(p, n) && IsTable(groups) && AreFrames(frames, n) && k < |frames| == |p.threads|
    ensures PoolBalance(ReplayThreads(p, frames, groups, n, k + 1)) == PoolBalance(ReplayThreads(p, frames, groups, n, k))
  {
    ThreadsStep(p, frames, groups, n, k);
    ThreadConserves(ReplayThreads(p, frames, groups, n, k), frames[k], groups, n, k);
  }

  lemma {:induction false} SumPlus(a: seq<int>, b: seq<int>)
    requires |a| == |b|
    ensures Sum(Plus(a, b)) == Sum(a) + Sum(b)
  {
    if a != [] {
      var n := |a| - 1;
      SumPlus(a[..n], b[..n]);
      assert Plus(a, b)[..n] == Plus(a[..n], b[..n]);
    }
  }

  function AddTotals(a: Totals, b: Totals): (t: Totals)
    requires IsTotals(a) && IsTotals(b)
    ensures IsTotals(t)
  {
    Totals(Plus(a.ticks, b.ticks), Plus(a.exclusive, b.exclusive), Plus(a.count, b.count), Plus(a.groupTicks, b.groupTicks))
  }

  // A flip of all threads: the shared counters start at zero and are accumulated at the end.
  function FlipAll(p: Pool, frames: seq<Frame>, groups: seq<nat>, n: nat): (q: Pool)
    requires IsPool(p, n) && IsTable(groups) && AreFrames(frames, n) && |frames| == |p.threads|
    ensures IsPool(q, n) && |q.threads| == |p.threads|
  {
    var q := ReplayThreads(Pool(p.threads, NoTotals), frames, groups, n, |frames|);
    Pool(q.threads, AddTotals(p.t, q.t))
  }

  // Whatever the threads logged, a flip of all of them makes and loses no exclusive tick.
  lemma FlipConserves(p: Pool, frames: seq<Frame>, groups: seq<nat>, n: nat)
    requires IsPool(p, n) && IsTable(groups) && AreFrames(frames, n) && |frames| == |p.threads|
    ensures PoolBalance(FlipAll(p, frames, groups, n)) == PoolBalance(p)
  {
    var p0 := Pool(p.threads, NoTotals);
    var q := ReplayThreads(p0, frames, groups, n, |frames|);
    ThreadsConserve(p0, frames, groups, n, |frames|);
    SumZeros(MAX_TIMERS);
    SumPlus(p.t.exclusive, q.t.exclusive);
  }

  ghost predicate AreFlips(flips: seq<seq<Frame>>, n: nat, threads: nat) {
    forall i :: 0 <= i < |flips| ==> |flips[i]| == threads && AreFrames(flips[i], n)
  }

  function NewPool(threads: nat): (p: Pool)
    ensures IsPool(p, 0) && |p.threads| == threads
  {
    Pool(seq(threads, _ => Empty), NoTotals)
  }

  function RunFlips(flips: seq<seq<Frame>>, groups: seq<nat>, n: nat, threads: nat): (p: Pool)
    requires IsTable(groups) && AreFlips(flips, n, threads)
    ensures IsPool(p, n) && |p.threads| == threads
  {
    if flips == [] then NewPool(threads) else
    FlipAll(RunFlips(flips[..|flips| - 1], groups, n, threads), flips[|flips| - 1], groups, n)
  }

  lemma NewBalance(threads: nat)
    ensures PoolBalance(NewPool(threads)) == 0
  {
    SumZeros(MAX_TIMERS);
    SumZeros(threads);
    assert Sum([0]) == 0;
    assert ChildSums(NewPool(threads).threads) == Zeros(threads);
  }

  // Over any number of flips of any number of threads, with any entries: the accumulated exclusive
  // ticks of all timers are the ticks in the threads' child slots up to their stack positions.
  lemma {:induction false} ConservedOverFlips(flips: seq<seq<Frame>>, groups: seq<nat>, n: nat, threads: nat)
    requires IsTable(groups) && AreFlips(flips, n, threads)
    ensures var p := RunFlips(flips, groups, n, threads);
            Sum(p.t.exclusive) == Sum(ChildSums(p.threads))
  {
    if flips == [] {
      NewBalance(threads);
    } else {
      var before := flips[..|flips| - 1];
      ConservedOverFlips(before, groups, n, threads);
      FlipConserves(RunFlips(before, groups, n, threads), flips[|flips| - 1], groups, n);
    }
  }

  /* ---------- Top-level time ---------- */

  // The ticks of the leave in slot `k` if it returns to depth 0.
  function TopTick(s: Replay, log: seq<Entry>, k: nat): int
    requires k < |log| && InLog(s.stack, |log|)
  {
    if LogType(log[k]) == LOG_LEAVE && |s.stack| == 1 then LogTickDifference(log[s.stack[0]], log[k]) else 0
  }

  // The ticks of all leaves that return to depth 0.
  function TopTicks(s: Replay, log: seq<Entry>, groups: seq<nat>, slots: seq<nat>): int
    requires Formed(s) && IsTable(groups) && Readable(log, slots) && InLog(s.stack, |log|)
  {
    if slots == [] then 0 else
    var init := slots[..|slots| - 1];
    TopTicks(s, log, groups, init) + TopTick(ReplaySlots(s, log, groups, init), log, slots[|slots| - 1])
  }

  lemma StepTop(s: Replay, log: seq<Entry>, groups: seq<nat>, k: nat)
    requires Formed(s) && IsTable(groups) && k < |log| && Known(log[k]) && InLog(s.stack, |log|)
    ensures Step(s, log, groups, k).child[0] == s.child[0] + TopTick(s, log, k)
  {
  }

  // The lowest child slot grows by exactly those ticks, whatever the log.
  lemma {:induction false} TopSlot(s: Replay, log: seq<Entry>, groups: seq<nat>, slots: seq<nat>)
    requires Formed(s) && IsTable(groups) && Readable(log, slots) && InLog(s.stack, |log|)
    ensures ReplaySlots(s, log, groups, slots).child[0] == s.child[0] + TopTicks(s, log, groups, slots)
  {
    if slots != [] {
      var init := slots[..|slots| - 1];
      TopSlot(s, log, groups, init);
      StepTop(ReplaySlots(s, log, groups, init), log, groups, slots[|slots| - 1]);
    }
  }

  // The lowest child slots of the threads.
  function Tops(threads: seq<Replay>): (s: seq<int>)
    requires forall i :: 0 <= i < |threads| ==> threads[i].child != []
    ensures |s| == |threads|
  {
    seq(|threads|, i requires 0 <= i < |threads| => threads[i].child[0])
  }

  // The top-level ticks that each of the first `k` threads adds in a flip.
  function TopsOfFlip(p: Pool, frames: seq<Frame>, groups: seq<nat>, n: nat, k: nat): (s: seq<int>)
    requires IsPool(p, n) && IsTable(groups) && AreFrames(frames, n) && k <= |frames| == |p.threads|
    ensures |s| == |p.threads|
  {
    if k == 0 then Zeros(|p.threads|) else
    TopsOfFlip(p, frames, groups, n, k - 1)[k - 1 := TopOfThread(ReplayThreads(p, frames, groups, n, k - 1), frames[k - 1], groups, n, k - 1)]
  }

  function TopOfThread(p: Pool, f: Frame, groups: seq<nat>, n: nat, k: nat): int
    requires IsPool(p, n) && IsTable(groups) && IsFrame(f, n) && k < |p.threads|
  {
    TopTicks(Carry(p.threads[k], p.t), f.log, groups, f.slots)
  }

  lemma ThreadTop(p: Pool, f: Frame, groups: seq<nat>, n: nat, k: nat, i: nat)
    requires IsPool(p, n) && IsTable(groups) && IsFrame(f, n) && k < |p.threads| && i < |p.threads|
    ensures ReplayThread(p, f, groups, n, k).threads[i].child[0] ==
            p.threads[i].child[0] + if i == k then TopOfThread(p, f, groups, n, k) else 0
  {
    TopSlot(Carry(p.threads[k], p.t), f.log, groups, f.slots);
  }

  lemma ThreadsStep(p: Pool, frames: seq<Frame>, groups: seq<nat>, n: nat, k: nat)
    requires IsPool(p, n) && IsTable(groups) && AreFrames(frames, n) && k < |frames| == |p.threads|
    ensures ReplayThreads(p, frames, groups, n, k + 1) == ReplayThread(ReplayThreads(p, frames, groups, n, k), frames[k], groups, n, k)
  {
  }

  // Each thread's lowest slot grows once, by the ticks of its own leaves.
  lemma {:induction false} TopAt(p: Pool, frames: seq<Frame>, groups: seq<nat>, n: nat, k: nat, i: nat)
    requires IsPool(p, n) && IsTable(groups) && AreFrames(frames, n) && k <= |frames| == |p.threads| && i < |p.threads|
    ensures ReplayThreads(p, frames, groups, n, k).threads[i].child[0] == p.threads[i].child[0] + TopsOfFlip(p, frames, groups, n, k)[i]
    ensures k <= i ==> TopsOfFlip(p, frames, groups, n, k)[i] == 0
  {
    if k > 0 {
      TopAt(p, frames, groups, n, k - 1, i);
      ThreadsStep(p, frames, groups, n, k - 1);
      ThreadTop(ReplayThreads(p, frames, groups, n, k - 1), frames[k - 1], groups, n, k - 1, i);
    }
  }

  lemma FlipTops(p: Pool, frames: seq<Frame>, groups: seq<nat>, n: nat)
    requires IsPool(p, n) && IsTable(groups) && AreFrames(frames, n) && |frames| == |p.threads|
    ensures Tops(ReplayThreads(p, frames, groups, n, |frames|).threads) == Plus(Tops(p.threads), TopsOfFlip(p, frames, groups, n, |frames|))
  {
    forall i | 0 <= i < |p.threads|
      ensures ReplayThreads(p, frames, groups, n, |frames|).threads[i].child[0]
              == p.threads[i].child[0] + TopsOfFlip(p, frames, groups, n, |frames|)[i]
    {
      TopAt(p, frames, groups, n, |frames|, i);
    }
  }

  // The top-level ticks of all threads over all flips.
  function TopTime(flips: seq<seq<Frame>>, groups: seq<nat>, n: nat, threads: nat): int
    requires IsTable(groups) && AreFlips(flips, n, threads)
  {
    if flips == [] then 0 else
    var before, last := flips[..|flips| - 1], flips[|flips| - 1];
    TopTime(before, groups, n, threads) + FlipTop(RunFlips(before, groups, n, threads), last, groups, n)
  }

  function FlipTop(p: Pool, frames: seq<Frame>, groups: seq<nat>, n: nat): int
    requires IsPool(p, n) && IsTable(groups) && AreFrames(frames, n) && |frames| == |p.threads|
  {
    Sum(TopsOfFlip(Pool(p.threads, NoTotals), frames, groups, n, |frames|))
  }

  lemma FlipAddsTop(p: Pool, frames: seq<Frame>, groups: seq<nat>, n: nat)
    requires IsPool(p, n) && IsTable(groups) && AreFrames(frames, n) && |frames| == |p.threads|
    ensures Sum(Tops(FlipAll(p, frames, groups, n).threads)) == Sum(Tops(p.threads)) + FlipTop(p, frames, groups, n)
  {
    var p0 := Pool(p.threads, NoTotals);
    FlipTops(p0, frames, groups, n);
    SumPlus(Tops(p.threads), TopsOfFlip(p0, frames, groups, n, |frames|));
  }

  lemma {:induction false} TopOverFlips(flips: seq<seq<Frame>>, groups: seq<nat>, n: nat, threads: nat)
    requires IsTable(groups) && AreFlips(flips, n, threads)
    ensures Sum(Tops(RunFlips(flips, groups, n, threads).threads)) == TopTime(flips, groups, n, threads)
  {
    if flips == [] {
      SumZeros(threads);
      assert Tops(NewPool(threads).threads) == Zeros(threads);
    } else {
      var before := flips[..|flips| - 1];
      TopOverFlips(before, groups, n, threads);
      FlipAddsTop(RunFlips(before, groups, n, threads), flips[|flips| - 1], groups, n);
    }
  }

  // With no timer open in any thread, the exclusive ticks of all timers are the top-level time,
  // whatever was logged.
  lemma ExclusiveIsTopTime(flips: seq<seq<Frame>>, groups: seq<nat>, n: nat, threads: nat)
    requires IsTable(groups) && AreFlips(flips, n, threads)
    requires var p := RunFlips(flips, groups, n, threads); forall i :: 0 <= i < threads ==> p.threads[i].stack == []
    ensures Sum(RunFlips(flips, groups, n, threads).t.exclusive) == TopTime(flips, groups, n, threads)
  {
    var p := RunFlips(flips, groups, n, threads);
    ConservedOverFlips(flips, groups, n, threads);
    TopOverFlips(flips, groups, n, threads);
    forall i | 0 <= i < threads
      ensures Sum(p.threads[i].child) == p.threads[i].child[0]
    {
      SumOne(p.threads[i].child);
    }
    assert ChildSums(p.threads) == Tops(p.threads);
  }

  lemma SumOne(s: seq<int>)
    requires |s| == 1
    ensures Sum(s) == s[0]
  {
    assert s[..0] == [];
  }
}
