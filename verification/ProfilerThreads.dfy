/**
 The whole profiler: any number of threads that begin, record and end, on logs that are handed from
 one thread to the next, with flips that replay all logs into shared counters.
 */
module ProfilerThreads {
  import opened Common
  import opened ProfilerTicks
  import opened ProfilerRing
  import opened ProfilerReplay
  import opened ProfilerGroups
  import opened ProfilerTimers
  import opened ProfilerRun
  import ProfilerPool

  // A log with its column of the frame table and its replay stacks.
  datatype Column = Column(ring: Ring, s: Replay)

  // The pool with the owners of its logs, what is in the logs, the frame, and the accumulated counters.
  datatype System = System(w: ProfilerPool.World, logs: seq<Column>, framePut: nat, t: Totals)

  datatype Doing = Begin(t: nat) | End(t: nat) | Record(t: nat, e: Entry) | RecordGpu(e: Entry) | FrameEnds

  ghost predicate IsColumn(c: Column, size: nat) {
    Shape(c.ring) && |c.ring.log| == size && KnownLog(c.ring.log) && Formed(c.s) && InLog(c.s.stack, size)
  }

  ghost predicate AreColumns(logs: seq<Column>, size: nat) {
    forall i :: 0 <= i < |logs| ==> IsColumn(logs[i], size)
  }

  ghost predicate IsSystem(x: System, size: nat) {
    && ProfilerPool.Owned(x.w) && |x.logs| == |x.w.pool.logs| && AreColumns(x.logs, size) && IsTotals(x.t)
    && 0 < size && x.framePut < FRAME_HISTORY
  }

  function NoStarts(): (s: seq<nat>)
    ensures |s| == FRAME_HISTORY && forall k :: 0 <= k < |s| ==> s[k] == 0
  {
    seq(FRAME_HISTORY, _ => 0)
  }

  // A log as it is handed out: cleared, but for its column.
  function Reset(size: nat, starts: seq<nat>, framePut: nat): Column {
    Column(Ring(seq(size, _ => 0), 0, 0, starts, framePut), Empty)
  }

  // The column of a log that is not there yet is kept at zero.
  function Handout(x: System, size: nat): (c: Column)
    requires IsSystem(x, size)
    ensures IsColumn(c, size)
  {
    var i := ProfilerPool.Handed(x.w.pool);
    Reset(size, if i < |x.logs| then x.logs[i].ring.starts else NoStarts(), x.framePut)
  }

  function Place<T>(s: seq<T>, i: nat, x: T): (s': seq<T>)
    requires i <= |s|
  {
    if i < |s| then s[i := x] else s + [x]
  }

  // A log as its thread leaves it: what has been recorded stays, out of reach.
  function Emptied(c: Column): Column {
    Column(c.ring.(put := 0, get := 0, starts := NoStarts()), c.s.(groupPos := Zeros(MAX_GROUPS)))
  }

  function Recorded(c: Column, e: Entry): (c': Column)
    requires Shape(c.ring)
  {
    c.(ring := Put(c.ring, e))
  }

  function FrameOf(c: Column): Frame
    requires Shape(c.ring)
  {
    Frame(Flip(c.ring).log, Window(Flip(c.ring)))
  }

  function FramesOf(logs: seq<Column>, size: nat): (frames: seq<Frame>)
    requires AreColumns(logs, size)
    ensures |frames| == |logs| && AreFrames(frames, size)
  {
    seq(|logs|, i requires 0 <= i < |logs| => FrameOf(logs[i]))
  }

  function Stacks(logs: seq<Column>): (s: seq<Replay>)
    ensures |s| == |logs|
  {
    seq(|logs|, i requires 0 <= i < |logs| => logs[i].s)
  }

  // All logs move on by a frame and are replayed one after the other into the shared counters.
  ghost function FlipLogs(x: System, groups: seq<nat>, size: nat): (x': System)
    requires IsSystem(x, size) && IsTable(groups)
    ensures IsSystem(x', size)
  {
    var q := FlipAll(Pool(Stacks(x.logs), x.t), FramesOf(x.logs, size), groups, size);
    System(ProfilerPool.Do(x.w, ProfilerPool.NextFrame),
           seq(|x.logs|, i requires 0 <= i < |x.logs| => Column(Flip(x.logs[i].ring), q.threads[i])),
           (x.framePut + 1) % FRAME_HISTORY, q.t)
  }

  ghost predicate KnownDoing(a: Doing) {
    (a.Record? || a.RecordGpu?) ==> Known(a.e)
  }

  // A thread begins once, while it has no log, and records and ends while it has one.
  ghost function Perform(x: System, groups: seq<nat>, size: nat, a: Doing): (x': System)
    requires IsSystem(x, size) && IsTable(groups) && KnownDoing(a)
    ensures IsSystem(x', size)
  {
    match a
    case Begin(t) => if t in x.w.owner then x else
      x.(w := ProfilerPool.Do(x.w, ProfilerPool.Begin(t)),
         logs := Place(x.logs, ProfilerPool.Handed(x.w.pool), Handout(x, size)))
    case End(t) => if t !in x.w.owner then x else
      var i := x.w.owner[t];
      x.(w := ProfilerPool.Do(x.w, ProfilerPool.End(t)), logs := x.logs[i := Emptied(x.logs[i])])
    case Record(t, e) => if t !in x.w.owner then x else
      var i := x.w.owner[t];
      var c := Recorded(x.logs[i], e);
      x.(w := ProfilerPool.Do(x.w, ProfilerPool.Log(t, c.ring.put)), logs := x.logs[i := c])
    case RecordGpu(e) => if x.logs == [] then x else
      var c := Recorded(x.logs[0], e);
      x.(w := ProfilerPool.Do(x.w, ProfilerPool.LogGpu(c.ring.put)), logs := x.logs[0 := c])
    case FrameEnds => FlipLogs(x, groups, size)
  }

  ghost function RunSystem(size: nat, groups: seq<nat>, doings: seq<Doing>): (x: System)
    requires size > 0 && IsTable(groups) && forall i :: 0 <= i < |doings| ==> KnownDoing(doings[i])
    ensures IsSystem(x, size)
  {
    if doings == [] then System(ProfilerPool.Start, [Reset(size, NoStarts(), 0)], 0, NoTotals) else
    Perform(RunSystem(size, groups, doings[..|doings| - 1]), groups, size, doings[|doings| - 1])
  }

  /* ---------- The history of a log ---------- */

  // A log that sees nothing but flips.
  function Idle(n: nat): (h: seq<Action>) {
    seq(n, _ => EndFrame)
  }

  ghost predicate IsHistory(h: seq<Action>) {
    forall i :: 0 <= i < |h| ==> KnownAction(h[i])
  }

  // What one thread's run of this history accumulates.
  ghost function LifeTotals(size: nat, groups: seq<nat>, life: Option<seq<Action>>): (t: Totals)
    requires size > 0 && IsTable(groups) && (life.Some? ==> IsHistory(life.value))
    ensures IsTotals(t)
  {
    if life.None? then NoTotals else RunWhole(size, groups, life.value).flips.t
  }

  // The log is as this run of one thread leaves it, but for the counters, which all share.
  ghost predicate IsRun(y: Whole, c: Column) {
    c.ring == y.run.ring && SameStacks(y.flips.s, c.s)
  }

  ghost predicate SameStacks(a: Replay, b: Replay) {
    a.stack == b.stack && a.child == b.child && a.groupPos == b.groupPos
  }

  // A log in use is as if its thread had had it alone from the start on; a free one is empty.
  ghost predicate LogKept(c: Column, l: ProfilerPool.LogState, life: Option<seq<Action>>, framePut: nat, size: nat, groups: seq<nat>)
    requires size > 0 && IsTable(groups)
  {
    && IsColumn(c, size) && c.ring.framePut == framePut && l.put == c.ring.put && l.get == c.ring.get
    && (l.active <==> life.Some?)
    && match life
       case None => c.ring.put == c.ring.get == 0 && c.ring.starts == NoStarts()
       case Some(h) => IsHistory(h) && IsRun(RunWhole(size, groups, h), c)
  }

  lemma WholeLast(size: nat, groups: seq<nat>, h: seq<Action>, a: Action, h': seq<Action>)
    requires size > 0 && IsTable(groups) && IsHistory(h) && KnownAction(a) && h' == h + [a]
    ensures IsHistory(h') && RunWhole(size, groups, h') == DoWhole(RunWhole(size, groups, h), groups, a)
  {
    assert h'[..|h'| - 1] == h;
  }

  lemma EmptyWindow(r: Ring)
    requires Shape(r) && r.put == 0 && r.starts == NoStarts()
    ensures Flip(r) == r.(framePut := (r.framePut + 1) % FRAME_HISTORY, get := 0) && Window(Flip(r)) == []
  {
    assert Flip(r).starts == NoStarts();
  }

  // A free log adds nothing in a flip.
  lemma NothingReplayed(c: Column, size: nat, groups: seq<nat>)
    requires size > 0 && IsTable(groups) && IsColumn(c, size) && c.ring.put == 0 && c.ring.starts == NoStarts()
    ensures var f := FrameOf(c); IsFrame(f, size) && FlipReplay(c.s, f.log, groups, f.slots) == Cleared(c.s)
  {
    EmptyWindow(c.ring);
  }

  lemma AddedNothing(t: Totals, s: Replay)
    requires IsTotals(t) && Formed(s)
    ensures Added(t, Cleared(s)) == t
  {
    var c := Cleared(s);
    assert Plus(t.ticks, c.ticks) == t.ticks && Plus(t.exclusive, c.exclusive) == t.exclusive;
    assert Plus(t.count, c.count) == t.count && Plus(t.groupTicks, c.groupTicks) == t.groupTicks;
  }

  // Nothing has been recorded or replayed.
  ghost predicate Untouched(y: Whole, size: nat, framePut: nat) {
    size > 0 && y.run.ring == Reset(size, NoStarts(), framePut).ring && y.flips == Flips(Empty, NoTotals)
  }

  lemma IdleFlip(y: Whole, groups: seq<nat>, size: nat, framePut: nat, framePut': nat)
    requires IsTable(groups) && Sound(y) && framePut < FRAME_HISTORY && framePut' == (framePut + 1) % FRAME_HISTORY
    ensures Untouched(y, size, framePut) ==> Untouched(DoWhole(y, groups, EndFrame), size, framePut')
  {
    if Untouched(y, size, framePut) {
      EmptyWindow(y.run.ring);
      NothingReplayed(Reset(size, NoStarts(), framePut), size, groups);
      AddedNothing(NoTotals, Empty);
      assert Cleared(Empty) == Empty;
    }
  }

  lemma IdleLast(n: nat)
    ensures IsHistory(Idle(n)) && Idle(n + 1) == Idle(n) + [EndFrame]
  {
  }

  ghost predicate IdleUntouched(size: nat, groups: seq<nat>, n: nat)
    requires size > 0 && IsTable(groups)
  {
    exists y: Whole :: y == RunWhole(size, groups, Idle(n)) && Untouched(y, size, Slot(n, FRAME_HISTORY))
  }

  lemma IdleNext(size: nat, groups: seq<nat>, n: nat, y: Whole) returns (y': Whole)
    requires size > 0 && IsTable(groups) && y == RunWhole(size, groups, Idle(n))
    ensures Sound(y) && y' == DoWhole(y, groups, EndFrame) == RunWhole(size, groups, Idle(n + 1))
  {
    IdleLast(n);
    WholeLast(size, groups, Idle(n), EndFrame, Idle(n + 1));
    y' := DoWhole(y, groups, EndFrame);
  }

  lemma IdleOnce(size: nat, groups: seq<nat>, n: nat)
    requires size > 0 && IsTable(groups) && IdleUntouched(size, groups, n)
    ensures IdleUntouched(size, groups, n + 1)
  {
    var y :| y == RunWhole(size, groups, Idle(n)) && Untouched(y, size, Slot(n, FRAME_HISTORY));
    var p, p' := Slot(n, FRAME_HISTORY), Slot(n + 1, FRAME_HISTORY);
    NextFrame(n);
    assert p' == (p + 1) % FRAME_HISTORY;
    assert p < FRAME_HISTORY;
    var y' := IdleNext(size, groups, n, y);
    IdleFlip(y, groups, size, p, p');
  }

  lemma {:induction false} IdleIs(size: nat, groups: seq<nat>, n: nat)
    requires size > 0 && IsTable(groups)
    ensures IdleUntouched(size, groups, n)
  {
    if n == 0 {
      assert Idle(0) == [];
      var y := RunWhole(size, groups, []);
      assert Untouched(y, size, Slot(0, FRAME_HISTORY));
    } else {
      IdleIs(size, groups, n - 1);
      IdleOnce(size, groups, n - 1);
    }
  }

  lemma BeginKept(size: nat, groups: seq<nat>, flips: nat)
    requires size > 0 && IsTable(groups)
    ensures var framePut := Slot(flips, FRAME_HISTORY);
            LogKept(Reset(size, NoStarts(), framePut), ProfilerPool.NewLog, Some(Idle(flips)), framePut, size, groups)
    ensures LifeTotals(size, groups, Some(Idle(flips))) == NoTotals
  {
    IdleIs(size, groups, flips);
  }

  lemma EndKept(c: Column, l: ProfilerPool.LogState, life: Option<seq<Action>>, framePut: nat, size: nat, groups: seq<nat>, next: int)
    requires size > 0 && IsTable(groups) && LogKept(c, l, life, framePut, size, groups)
    ensures LogKept(Emptied(c), ProfilerPool.LogState(0, 0, false, l.gpu, next), None, framePut, size, groups)
  {
  }

  lemma RecordKept(c: Column, l: ProfilerPool.LogState, h: seq<Action>, framePut: nat, size: nat, groups: seq<nat>, e: Entry)
    requires size > 0 && IsTable(groups) && LogKept(c, l, Some(h), framePut, size, groups) && Known(e)
    ensures var c' := Recorded(c, e); LogKept(c', l.(put := c'.ring.put), Some(h + [Write(e)]), framePut, size, groups)
    ensures LifeTotals(size, groups, Some(h + [Write(e)])) == LifeTotals(size, groups, Some(h))
  {
    WholeLast(size, groups, h, Write(e), h + [Write(e)]);
  }

  function AfterFlip(life: Option<seq<Action>>): Option<seq<Action>> {
    if life.None? then None else Some(life.value + [EndFrame])
  }

  // What a log adds to the counters in a flip.
  function Replayed(c: Column, size: nat, groups: seq<nat>): (s: Replay)
    requires IsColumn(c, size) && IsTable(groups)
    ensures Formed(s)
  {
    FlipReplay(c.s, FrameOf(c).log, groups, FrameOf(c).slots)
  }

  // What a flip makes of a log.
  ghost predicate Flipped(c: Column, l: ProfilerPool.LogState, c': Column, l': ProfilerPool.LogState, size: nat, groups: seq<nat>)
    requires IsColumn(c, size) && IsTable(groups)
  {
    && c'.ring == Flip(c.ring) && l' == l.(get := l.put) && Formed(c'.s) && InLog(c'.s.stack, size)
    && SameStacks(Replayed(c, size, groups), c'.s)
  }

  lemma FlipColumn(c: Column, l: ProfilerPool.LogState, c': Column, l': ProfilerPool.LogState, size: nat, groups: seq<nat>)
    requires IsTable(groups) && IsColumn(c, size) && Flipped(c, l, c', l', size, groups)
    ensures IsColumn(c', size) && c'.ring.put == c'.ring.get == c.ring.put
  {
  }

  lemma FreeKept(c: Column, l: ProfilerPool.LogState, framePut: nat, size: nat, groups: seq<nat>,
                 c': Column, l': ProfilerPool.LogState, framePut': nat)
    requires size > 0 && IsTable(groups) && LogKept(c, l, None, framePut, size, groups) && Flipped(c, l, c', l', size, groups)
    requires c'.ring.framePut == framePut'
    ensures LogKept(c', l', None, framePut', size, groups)
  {
    EmptyWindow(c.ring);
    FlipColumn(c, l, c', l', size, groups);
  }

  lemma KeptAsRun(c: Column, l: ProfilerPool.LogState, h: seq<Action>, framePut: nat, size: nat, groups: seq<nat>, y: Whole)
    requires size > 0 && IsTable(groups) && IsColumn(c, size) && c.ring.framePut == framePut && l.put == c.ring.put && l.get == c.ring.get
    requires l.active && IsHistory(h) && y == RunWhole(size, groups, h) && IsRun(y, c)
    ensures LogKept(c, l, Some(h), framePut, size, groups)
  {
  }

  lemma UsedKept(c: Column, l: ProfilerPool.LogState, h: seq<Action>, framePut: nat, size: nat, groups: seq<nat>,
                 c': Column, l': ProfilerPool.LogState, h': seq<Action>, framePut': nat)
    requires size > 0 && IsTable(groups) && LogKept(c, l, Some(h), framePut, size, groups) && Flipped(c, l, c', l', size, groups)
    requires h' == h + [EndFrame] && c'.ring.framePut == framePut'
    ensures LogKept(c', l', Some(h'), framePut', size, groups)
  {
    var y := FlipSteps(c, l, h, framePut, size, groups, h');
    FlipColumn(c, l, c', l', size, groups);
    KeptAsRun(c', l', h', framePut', size, groups, y);
  }

  // The flip of a log in use is the flip of its thread's run.
  lemma FlipSteps(c: Column, l: ProfilerPool.LogState, h: seq<Action>, framePut: nat, size: nat, groups: seq<nat>, h': seq<Action>)
    returns (y: Whole)
    requires size > 0 && IsTable(groups) && LogKept(c, l, Some(h), framePut, size, groups) && h' == h + [EndFrame]
    ensures IsHistory(h') && y == RunWhole(size, groups, h')
    ensures var r := Replayed(c, size, groups);
            y.run.ring == Flip(c.ring) && y.flips == Flips(r, Added(RunWhole(size, groups, h).flips.t, r))
  {
    WholeLast(size, groups, h, EndFrame, h');
    y := RunWhole(size, groups, h');
  }

  lemma FlipKept(c: Column, l: ProfilerPool.LogState, life: Option<seq<Action>>, framePut: nat, size: nat, groups: seq<nat>,
                 c': Column, l': ProfilerPool.LogState, framePut': nat)
    requires size > 0 && IsTable(groups) && LogKept(c, l, life, framePut, size, groups) && Flipped(c, l, c', l', size, groups)
    requires c'.ring.framePut == framePut'
    ensures LogKept(c', l', AfterFlip(life), framePut', size, groups)
  {
    if life.None? {
      FreeKept(c, l, framePut, size, groups, c', l', framePut');
    } else {
      UsedKept(c, l, life.value, framePut, size, groups, c', l', life.value + [EndFrame], framePut');
    }
  }

  lemma FlipAddsLife(c: Column, l: ProfilerPool.LogState, life: Option<seq<Action>>, framePut: nat, size: nat, groups: seq<nat>)
    requires size > 0 && IsTable(groups) && LogKept(c, l, life, framePut, size, groups)
    ensures (life.Some? ==> IsHistory(AfterFlip(life).value))
    ensures LifeTotals(size, groups, AfterFlip(life)) == AddTotals(LifeTotals(size, groups, life), CountersOf(Replayed(c, size, groups)))
  {
    if life.None? {
      NothingReplayed(c, size, groups);
      AddedNothing(NoTotals, c.s);
    } else {
      var y := FlipSteps(c, l, life.value, framePut, size, groups, life.value + [EndFrame]);
    }
  }

  /* ---------- Sums of totals ---------- */

  lemma PlusZero(a: seq<int>, n: nat)
    requires |a| == n
    ensures Plus(a, Zeros(n)) == a && Plus(Zeros(n), a) == a
  {
  }

  lemma AddNoTotals(t: Totals)
    requires IsTotals(t)
    ensures AddTotals(t, NoTotals) == t && AddTotals(NoTotals, t) == t
  {
    PlusZero(t.ticks, MAX_TIMERS);
    PlusZero(t.exclusive, MAX_TIMERS);
    PlusZero(t.count, MAX_TIMERS);
    PlusZero(t.groupTicks, MAX_GROUPS);
  }

  lemma PlusSwap(a: seq<int>, b: seq<int>, c: seq<int>, d: seq<int>)
    requires |a| == |b| == |c| == |d|
    ensures Plus(Plus(a, b), Plus(c, d)) == Plus(Plus(a, c), Plus(b, d))
  {
  }

  lemma AddSwap(a: Totals, b: Totals, c: Totals, d: Totals)
    requires IsTotals(a) && IsTotals(b) && IsTotals(c) && IsTotals(d)
    ensures AddTotals(AddTotals(a, b), AddTotals(c, d)) == AddTotals(AddTotals(a, c), AddTotals(b, d))
  {
    PlusSwap(a.ticks, b.ticks, c.ticks, d.ticks);
    PlusSwap(a.exclusive, b.exclusive, c.exclusive, d.exclusive);
    PlusSwap(a.count, b.count, c.count, d.count);
    PlusSwap(a.groupTicks, b.groupTicks, c.groupTicks, d.groupTicks);
  }

  ghost predicate AllTotals(ts: seq<Totals>) {
    forall i :: 0 <= i < |ts| ==> IsTotals(ts[i])
  }

  // The sum of the first `k`.
  function SumTo(ts: seq<Totals>, k: nat): (t: Totals)
    requires AllTotals(ts) && k <= |ts|
    ensures IsTotals(t)
  {
    if k == 0 then NoTotals else AddTotals(SumTo(ts, k - 1), ts[k - 1])
  }

  lemma {:induction false} SumSame(a: seq<Totals>, b: seq<Totals>, k: nat)
    requires AllTotals(a) && AllTotals(b) && k <= |a| && k <= |b| && forall i :: 0 <= i < k ==> a[i] == b[i]
    ensures SumTo(a, k) == SumTo(b, k)
  {
    if k > 0 {
      SumSame(a, b, k - 1);
    }
  }

  // One of them set apart.
  lemma {:induction false} SumOut(ts: seq<Totals>, i: nat, k: nat)
    requires AllTotals(ts) && i < k <= |ts|
    ensures SumTo(ts, k) == AddTotals(SumTo(ts[i := NoTotals], k), ts[i])
  {
    var rest := ts[i := NoTotals];
    if i == k - 1 {
      SumSame(ts, rest, k - 1);
      AddNoTotals(SumTo(rest, k - 1));
    } else {
      SumOut(ts, i, k - 1);
      AddSwap(SumTo(rest, k - 1), ts[i], ts[k - 1], NoTotals);
      AddNoTotals(ts[k - 1]);
      AddNoTotals(ts[i]);
    }
  }

  // Sums add up, one by one.
  lemma {:induction false} SumAdds(a: seq<Totals>, b: seq<Totals>, c: seq<Totals>, k: nat)
    requires AllTotals(a) && AllTotals(b) && AllTotals(c) && k <= |a| == |b| == |c|
    requires forall i :: 0 <= i < k ==> c[i] == AddTotals(a[i], b[i])
    ensures SumTo(c, k) == AddTotals(SumTo(a, k), SumTo(b, k))
  {
    if k == 0 {
      AddNoTotals(NoTotals);
    } else {
      SumAdds(a, b, c, k - 1);
      AddSwap(SumTo(a, k - 1), SumTo(b, k - 1), a[k - 1], b[k - 1]);
    }
  }

  type Lives = seq<Option<seq<Action>>>

  ghost predicate AreLives(lives: Lives) {
    forall i :: 0 <= i < |lives| && lives[i].Some? ==> IsHistory(lives[i].value)
  }

  // What each of the lives has accumulated.
  ghost function Accumulated(size: nat, groups: seq<nat>, lives: Lives): (ts: seq<Totals>)
    requires size > 0 && IsTable(groups) && AreLives(lives)
    ensures |ts| == |lives| && AllTotals(ts)
  {
    seq(|lives|, i requires 0 <= i < |lives| => LifeTotals(size, groups, lives[i]))
  }

  function AllAfterFlip(lives: Lives): (r: Lives)
    ensures |r| == |lives|
  {
    seq(|lives|, i requires 0 <= i < |lives| => AfterFlip(lives[i]))
  }

  /* ---------- A flip of all logs ---------- */

  // One log after the other adds what its own replay gives.
  lemma ThreadReplayed(p: Pool, f: Frame, groups: seq<nat>, n: nat, k: nat)
    requires IsPool(p, n) && IsTable(groups) && IsFrame(f, n) && k < |p.threads|
    ensures var q, s := ReplayThread(p, f, groups, n, k), FlipReplay(p.threads[k], f.log, groups, f.slots);
            q.threads == p.threads[k := q.threads[k]] && SameStacks(s, q.threads[k]) && q.t == Added(p.t, s)
  {
    FlipContinues(p.t, p.threads[k], f.log, groups, f.slots);
  }

  // What each of the logs adds in a flip.
  function Gains(logs: seq<Column>, size: nat, groups: seq<nat>): (ts: seq<Totals>)
    requires AreColumns(logs, size) && IsTable(groups)
    ensures |ts| == |logs| && AllTotals(ts)
  {
    seq(|logs|, i requires 0 <= i < |logs| => CountersOf(Replayed(logs[i], size, groups)))
  }

  ghost predicate ReplayedTo(logs: seq<Column>, size: nat, groups: seq<nat>, k: nat, q: Pool)
    requires AreColumns(logs, size) && IsTable(groups) && k <= |logs|
  {
    && IsPool(q, size) && |q.threads| == |logs| && q.t == SumTo(Gains(logs, size, groups), k)
    && (forall i :: 0 <= i < k ==> SameStacks(Replayed(logs[i], size, groups), q.threads[i]))
    && forall i :: k <= i < |logs| ==> q.threads[i] == logs[i].s
  }

  lemma OneCounted(ts: seq<Totals>, j: nat, k: nat, t: Totals, t': Totals, s: Replay)
    requires AllTotals(ts) && j + 1 == k <= |ts| && t == SumTo(ts, j) && Formed(s) && ts[j] == CountersOf(s) && t' == Added(t, s)
    ensures t' == SumTo(ts, k)
  {
  }

  lemma OneReplayed(logs: seq<Column>, size: nat, groups: seq<nat>, j: nat, k: nat, q: Pool, q': Pool)
    requires AreColumns(logs, size) && IsTable(groups) && j + 1 == k <= |logs| && ReplayedTo(logs, size, groups, j, q)
    requires q' == ReplayThread(q, FrameOf(logs[j]), groups, size, j)
    ensures ReplayedTo(logs, size, groups, k, q')
  {
    ThreadReplayed(q, FrameOf(logs[j]), groups, size, j);
    OneCounted(Gains(logs, size, groups), j, k, q.t, q'.t, Replayed(logs[j], size, groups));
  }

  lemma NextReplayed(logs: seq<Column>, size: nat, groups: seq<nat>, j: nat, k: nat, q: Pool, q': Pool)
    requires AreColumns(logs, size) && IsTable(groups) && j + 1 == k <= |logs| == |q.threads| && IsPool(q, size)
    requires q' == ReplayThread(q, FrameOf(logs[j]), groups, size, j)
    ensures ReplayedTo(logs, size, groups, j, q) ==> ReplayedTo(logs, size, groups, k, q')
  {
    if ReplayedTo(logs, size, groups, j, q) {
      OneReplayed(logs, size, groups, j, k, q, q');
    }
  }

  ghost function ReplayedLogs(logs: seq<Column>, size: nat, groups: seq<nat>, k: nat): (q: Pool)
    requires AreColumns(logs, size) && IsTable(groups) && k <= |logs|
    ensures IsPool(q, size) && |q.threads| == |logs|
  {
    ReplayThreads(Pool(Stacks(logs), NoTotals), FramesOf(logs, size), groups, size, k)
  }

  lemma ReplayedNext(logs: seq<Column>, size: nat, groups: seq<nat>, j: nat, k: nat, q: Pool, q': Pool)
    requires AreColumns(logs, size) && IsTable(groups) && j + 1 == k <= |logs|
    requires q == ReplayedLogs(logs, size, groups, j) && q' == ReplayedLogs(logs, size, groups, k)
    ensures ReplayedTo(logs, size, groups, j, q) ==> ReplayedTo(logs, size, groups, k, q')
  {
    ThreadsStep(Pool(Stacks(logs), NoTotals), FramesOf(logs, size), groups, size, j);
    NextReplayed(logs, size, groups, j, k, q, q');
  }

  // The replay of the first `k` threads is that of the first `k` logs.
  ghost predicate DoneTo(logs: seq<Column>, size: nat, groups: seq<nat>, k: nat)
    requires AreColumns(logs, size) && IsTable(groups) && k <= |logs|
  {
    exists q: Pool :: q == ReplayedLogs(logs, size, groups, k) && ReplayedTo(logs, size, groups, k, q)
  }

  lemma LogReplayed(logs: seq<Column>, size: nat, groups: seq<nat>, j: nat, k: nat)
    requires AreColumns(logs, size) && IsTable(groups) && j + 1 == k <= |logs| && DoneTo(logs, size, groups, j)
    ensures DoneTo(logs, size, groups, k)
  {
    var q, q' := ReplayedLogs(logs, size, groups, j), ReplayedLogs(logs, size, groups, k);
    ReplayedNext(logs, size, groups, j, k, q, q');
  }

  lemma NoneReplayed(logs: seq<Column>, size: nat, groups: seq<nat>)
    requires AreColumns(logs, size) && IsTable(groups)
    ensures DoneTo(logs, size, groups, 0)
  {
    assert ReplayedTo(logs, size, groups, 0, ReplayedLogs(logs, size, groups, 0));
  }

  lemma {:induction false} LogsReplayed(logs: seq<Column>, size: nat, groups: seq<nat>, k: nat)
    requires AreColumns(logs, size) && IsTable(groups) && k <= |logs|
    ensures DoneTo(logs, size, groups, k)
  {
    if k == 0 {
      NoneReplayed(logs, size, groups);
    } else {
      LogsReplayed(logs, size, groups, k - 1);
      LogReplayed(logs, size, groups, k - 1, k);
    }
  }

  /* ---------- What each thread has done ---------- */

  ghost predicate AreKnown(doings: seq<Doing>) {
    forall i :: 0 <= i < |doings| ==> KnownDoing(doings[i])
  }

  function FlipsIn(doings: seq<Doing>): nat {
    if doings == [] then 0 else FlipsIn(doings[..|doings| - 1]) + if doings[|doings| - 1].FrameEnds? then 1 else 0
  }

  // A live thread's own history: the flips before it began, then what it has recorded and the flips since.
  ghost function History(doings: seq<Doing>, t: nat): (life: Option<seq<Action>>)
    requires AreKnown(doings)
    ensures life.Some? ==> IsHistory(life.value)
  {
    if doings == [] then None else
    var before, last := doings[..|doings| - 1], doings[|doings| - 1];
    var life := History(before, t);
    match last
    case Begin(u) => if u == t && life.None? then Some(Idle(FlipsIn(before))) else life
    case End(u) => if u == t then None else life
    case Record(u, e) => if u == t && life.Some? then Some(life.value + [Write(e)]) else life
    case RecordGpu(_) => life
    case FrameEnds => AfterFlip(life)
  }

  ghost function GpuHistory(doings: seq<Doing>): (h: seq<Action>)
    requires AreKnown(doings)
    ensures IsHistory(h)
  {
    if doings == [] then [] else
    var before, last := doings[..|doings| - 1], doings[|doings| - 1];
    var h := GpuHistory(before);
    match last
    case RecordGpu(e) => h + [Write(e)]
    case FrameEnds => h + [EndFrame]
    case _ => h
  }

  // The histories of the threads that have ended.
  ghost function Ended(doings: seq<Doing>): (past: Lives)
    requires AreKnown(doings)
    ensures AreLives(past)
  {
    if doings == [] then [] else
    var before, last := doings[..|doings| - 1], doings[|doings| - 1];
    if last.End? && History(before, last.t).Some? then Ended(before) + [History(before, last.t)] else Ended(before)
  }

  /* ---------- What every step keeps ---------- */

  ghost predicate AllKept(logs: seq<Column>, states: seq<ProfilerPool.LogState>, now: Lives, framePut: nat, size: nat, groups: seq<nat>)
    requires size > 0 && IsTable(groups)
  {
    |logs| == |states| == |now| && forall i :: 0 <= i < |logs| ==> LogKept(logs[i], states[i], now[i], framePut, size, groups)
  }

  lemma KeptSet(logs: seq<Column>, states: seq<ProfilerPool.LogState>, now: Lives, framePut: nat, size: nat, groups: seq<nat>,
                i: nat, c: Column, l: ProfilerPool.LogState, life: Option<seq<Action>>)
    requires size > 0 && IsTable(groups) && AllKept(logs, states, now, framePut, size, groups)
    requires i < |logs| && LogKept(c, l, life, framePut, size, groups)
    ensures AllKept(logs[i := c], states[i := l], now[i := life], framePut, size, groups)
  {
  }

  lemma KeptPush(logs: seq<Column>, states: seq<ProfilerPool.LogState>, now: Lives, framePut: nat, size: nat, groups: seq<nat>,
                 c: Column, l: ProfilerPool.LogState, life: Option<seq<Action>>)
    requires size > 0 && IsTable(groups) && AllKept(logs, states, now, framePut, size, groups)
    requires LogKept(c, l, life, framePut, size, groups)
    ensures AllKept(logs + [c], states + [l], now + [life], framePut, size, groups)
  {
  }

  ghost predicate AllFlipped(logs: seq<Column>, states: seq<ProfilerPool.LogState>, logs': seq<Column>, states': seq<ProfilerPool.LogState>,
                             framePut': nat, size: nat, groups: seq<nat>)
    requires AreColumns(logs, size) && IsTable(groups)
  {
    && |logs| == |states| == |logs'| == |states'|
    && forall i :: 0 <= i < |logs| ==> Flipped(logs[i], states[i], logs'[i], states'[i], size, groups) && logs'[i].ring.framePut == framePut'
  }

  lemma KeptFlip(logs: seq<Column>, states: seq<ProfilerPool.LogState>, now: Lives, framePut: nat, size: nat, groups: seq<nat>,
                 logs': seq<Column>, states': seq<ProfilerPool.LogState>, framePut': nat)
    requires size > 0 && IsTable(groups) && AllKept(logs, states, now, framePut, size, groups) && AreColumns(logs, size)
    ensures AllFlipped(logs, states, logs', states', framePut', size, groups) ==>
              AllKept(logs', states', AllAfterFlip(now), framePut', size, groups)
  {
    if AllFlipped(logs, states, logs', states', framePut', size, groups) {
      forall i | 0 <= i < |logs|
        ensures LogKept(logs'[i], states'[i], AfterFlip(now[i]), framePut', size, groups)
      {
        FlipKept(logs[i], states[i], now[i], framePut, size, groups, logs'[i], states'[i], framePut');
      }
    }
  }

  // Every thread's log is its own history, and log 0 is the GPU's.
  ghost predicate Owners(owner: map<nat, nat>, now: Lives, doings: seq<Doing>)
    requires AreKnown(doings)
  {
    && now != [] && now[0] == Some(GpuHistory(doings))
    && (forall t :: t in owner ==> owner[t] < |now| && now[owner[t]].Some? && now[owner[t]] == History(doings, t))
    && forall t: nat :: t !in owner ==> History(doings, t).None?
  }

  // The counters are those of all threads, ended or not, each on its own.
  ghost predicate Counted(t: Totals, past: Lives, now: Lives, size: nat, groups: seq<nat>)
    requires size > 0 && IsTable(groups) && AreLives(past) && AreLives(now)
  {
    t == AddTotals(SumTo(Accumulated(size, groups, past), |past|), SumTo(Accumulated(size, groups, now), |now|))
  }

  lemma {:induction false} CountedSame(t: Totals, past: Lives, now: Lives, now': Lives, size: nat, groups: seq<nat>)
    requires size > 0 && IsTable(groups) && AreLives(past) && AreLives(now) && AreLives(now') && Counted(t, past, now, size, groups)
    requires |now| == |now'| && forall i :: 0 <= i < |now| ==> LifeTotals(size, groups, now[i]) == LifeTotals(size, groups, now'[i])
    ensures Counted(t, past, now', size, groups)
  {
    SumSame(Accumulated(size, groups, now), Accumulated(size, groups, now'), |now|);
  }

  lemma CountedPush(t: Totals, past: Lives, now: Lives, life: Option<seq<Action>>, size: nat, groups: seq<nat>)
    requires size > 0 && IsTable(groups) && AreLives(past) && AreLives(now) && Counted(t, past, now, size, groups)
    requires (life.Some? ==> IsHistory(life.value)) && LifeTotals(size, groups, life) == NoTotals
    ensures AreLives(now + [life]) && Counted(t, past, now + [life], size, groups)
  {
    SumSame(Accumulated(size, groups, now), Accumulated(size, groups, now + [life]), |now|);
    AddNoTotals(SumTo(Accumulated(size, groups, now), |now|));
  }

  lemma AddThird(a: Totals, b: Totals, c: Totals)
    requires IsTotals(a) && IsTotals(b) && IsTotals(c)
    ensures AddTotals(a, AddTotals(b, c)) == AddTotals(AddTotals(a, c), b) == AddTotals(AddTotals(a, b), c)
  {
    AddSwap(a, NoTotals, b, c);
    AddSwap(a, NoTotals, c, b);
    AddSwap(a, b, c, NoTotals);
    AddSwap(b, c, NoTotals, NoTotals);
    AddNoTotals(a);
    AddNoTotals(b);
    AddNoTotals(c);
  }

  // A life that ends is counted among the past ones.
  lemma CountedEnd(t: Totals, past: Lives, now: Lives, i: nat, size: nat, groups: seq<nat>)
    requires size > 0 && IsTable(groups) && AreLives(past) && AreLives(now) && Counted(t, past, now, size, groups) && i < |now|
    ensures AreLives(past + [now[i]]) && AreLives(now[i := None]) && Counted(t, past + [now[i]], now[i := None], size, groups)
  {
    var ps, ns := Accumulated(size, groups, past), Accumulated(size, groups, now);
    var ps', ns' := Accumulated(size, groups, past + [now[i]]), Accumulated(size, groups, now[i := None]);
    assert ns' == ns[i := NoTotals];
    SumOut(ns, i, |now|);
    SumSame(ps, ps', |past|);
    AddThird(SumTo(ps, |past|), SumTo(ns', |now|), ns[i]);
  }

  lemma AccumulatedFlip(now: Lives, now': Lives, gains: seq<Totals>, size: nat, groups: seq<nat>)
    requires size > 0 && IsTable(groups) && AreLives(now) && AreLives(now') && |now'| == |now| == |gains| && AllTotals(gains)
    requires forall i :: 0 <= i < |now| ==> LifeTotals(size, groups, now'[i]) == AddTotals(LifeTotals(size, groups, now[i]), gains[i])
    ensures var ns, ns' := Accumulated(size, groups, now), Accumulated(size, groups, now');
            SumTo(ns', |now|) == AddTotals(SumTo(ns, |now|), SumTo(gains, |now|))
  {
    SumAdds(Accumulated(size, groups, now), gains, Accumulated(size, groups, now'), |now|);
  }

  // In a flip every life grows by what its log adds.
  lemma CountedFlip(t: Totals, past: Lives, now: Lives, now': Lives, gains: seq<Totals>, size: nat, groups: seq<nat>)
    requires size > 0 && IsTable(groups) && AreLives(past) && AreLives(now) && AreLives(now') && Counted(t, past, now, size, groups)
    requires |now'| == |now| == |gains| && AllTotals(gains)
    requires forall i :: 0 <= i < |now| ==> LifeTotals(size, groups, now'[i]) == AddTotals(LifeTotals(size, groups, now[i]), gains[i])
    ensures Counted(AddTotals(t, SumTo(gains, |now|)), past, now', size, groups)
  {
    AccumulatedFlip(now, now', gains, size, groups);
    AddThird(SumTo(Accumulated(size, groups, past), |past|), SumTo(Accumulated(size, groups, now), |now|), SumTo(gains, |now|));
  }

  /* ----- The steps ----- */

  // The last of the doings.
  ghost predicate Extends(doings: seq<Doing>, before: seq<Doing>, a: Doing) {
    AreKnown(doings) && doings != [] && doings[..|doings| - 1] == before && doings[|doings| - 1] == a
  }

  lemma OwnersBegin(owner: map<nat, nat>, now: Lives, before: seq<Doing>, doings: seq<Doing>, t: nat, i: nat, now': Lives)
    requires Extends(doings, before, Begin(t)) && Owners(owner, now, before) && t !in owner && 0 < i < |now'| && |now| <= |now'|
    requires now'[i] == Some(Idle(FlipsIn(before))) && forall k :: 0 <= k < |now| && k != i ==> now'[k] == now[k]
    requires forall u :: u in owner ==> owner[u] != i
    ensures Owners(owner[t := i], now', doings)
  {
  }

  lemma OwnersEnd(owner: map<nat, nat>, now: Lives, before: seq<Doing>, doings: seq<Doing>, t: nat)
    requires Extends(doings, before, End(t)) && Owners(owner, now, before) && t in owner && owner[t] > 0
    requires forall u :: u in owner && u != t ==> owner[u] != owner[t]
    ensures Owners(owner - {t}, now[owner[t] := None], doings)
  {
  }

  lemma OwnersRecord(owner: map<nat, nat>, now: Lives, before: seq<Doing>, doings: seq<Doing>, t: nat, e: Entry)
    requires Extends(doings, before, Record(t, e)) && Owners(owner, now, before) && t in owner && owner[t] > 0
    requires forall u :: u in owner && u != t ==> owner[u] != owner[t]
    ensures var i := owner[t]; Owners(owner, now[i := Some(now[i].value + [Write(e)])], doings)
  {
  }

  lemma OwnersGpu(owner: map<nat, nat>, now: Lives, before: seq<Doing>, doings: seq<Doing>, e: Entry)
    requires Extends(doings, before, RecordGpu(e)) && Owners(owner, now, before)
    requires forall u :: u in owner ==> owner[u] > 0
    ensures now != [] && now[0].Some? && Owners(owner, now[0 := Some(now[0].value + [Write(e)])], doings)
  {
  }

  lemma OwnersFlip(owner: map<nat, nat>, now: Lives, before: seq<Doing>, doings: seq<Doing>)
    requires Extends(doings, before, FrameEnds) && Owners(owner, now, before)
    ensures Owners(owner, AllAfterFlip(now), doings)
  {
  }

  // A thread that has begun does not begin, and one that has not neither records nor ends.
  lemma OwnersSame(owner: map<nat, nat>, now: Lives, before: seq<Doing>, doings: seq<Doing>, a: Doing)
    requires Extends(doings, before, a) && Owners(owner, now, before)
    requires (a.Begin? && a.t in owner) || ((a.End? || a.Record?) && a.t !in owner)
    ensures Owners(owner, now, doings) && Ended(doings) == Ended(before) && FlipsIn(doings) == FlipsIn(before)
  {
  }

  // The system has done what the threads have done, each on its own.
  ghost predicate Followed(x: System, doings: seq<Doing>, now: Lives, free: seq<nat>, size: nat, groups: seq<nat>)
    requires size > 0 && IsTable(groups) && AreKnown(doings)
  {
    && IsSystem(x, size) && ProfilerPool.Inv(x.w, free) && x.framePut == Slot(FlipsIn(doings), FRAME_HISTORY)
    && AllKept(x.logs, x.w.pool.logs, now, x.framePut, size, groups) && AreLives(now) && Owners(x.w.owner, now, doings)
    && Counted(x.t, Ended(doings), now, size, groups)
  }

  ghost predicate Sequel(x: System, doings: seq<Doing>, size: nat, groups: seq<nat>)
    requires size > 0 && IsTable(groups) && AreKnown(doings)
  {
    exists now: Lives, free: seq<nat> :: Followed(x, doings, now, free, size, groups)
  }

  // The system consists of these parts.
  ghost predicate Has(x: System, logs: seq<Column>, states: seq<ProfilerPool.LogState>, owner: map<nat, nat>, framePut: nat, t: Totals) {
    x.logs == logs && x.w.pool.logs == states && x.w.owner == owner && x.framePut == framePut && x.t == t
  }

  lemma SequelOf(x: System, logs: seq<Column>, states: seq<ProfilerPool.LogState>, owner: map<nat, nat>, framePut: nat, t: Totals,
                 doings: seq<Doing>, now: Lives, free: seq<nat>, size: nat, groups: seq<nat>)
    requires size > 0 && IsTable(groups) && AreKnown(doings) && IsSystem(x, size) && AreLives(now)
    ensures && Has(x, logs, states, owner, framePut, t) && ProfilerPool.Inv(x.w, free) && framePut == Slot(FlipsIn(doings), FRAME_HISTORY)
            && AllKept(logs, states, now, framePut, size, groups)
            && Owners(owner, now, doings) && Counted(t, Ended(doings), now, size, groups)
            ==> Sequel(x, doings, size, groups)
  {
    if && Has(x, logs, states, owner, framePut, t) && ProfilerPool.Inv(x.w, free) && framePut == Slot(FlipsIn(doings), FRAME_HISTORY)
       && AllKept(logs, states, now, framePut, size, groups)
       && Owners(owner, now, doings) && Counted(t, Ended(doings), now, size, groups) {
      assert Followed(x, doings, now, free, size, groups);
    }
  }

  // The log handed out is a free one, or new.
  lemma HandedIsFree(w: ProfilerPool.World, free: seq<nat>)
    requires ProfilerPool.Inv(w, free)
    ensures var i := ProfilerPool.Handed(w.pool); 0 < i && i !in w.owner.Values && (i < |w.pool.logs| ==> !w.pool.logs[i].active)
  {
    ProfilerPool.HandedIsNew(w, free);
    if w.pool.head != -1 {
      assert free[0] in free;
    }
  }

  lemma KeptBegin(x: System, now: Lives, size: nat, groups: seq<nat>, flips: nat)
    requires size > 0 && IsTable(groups) && IsSystem(x, size) && AllKept(x.logs, x.w.pool.logs, now, x.framePut, size, groups)
    requires x.framePut == Slot(flips, FRAME_HISTORY)
    requires var i := ProfilerPool.Handed(x.w.pool); i < |x.w.pool.logs| ==> !x.w.pool.logs[i].active
    ensures var i := ProfilerPool.Handed(x.w.pool);
            i <= |now| && AllKept(Place(x.logs, i, Handout(x, size)), ProfilerPool.Create(x.w.pool).logs, Place(now, i, Some(Idle(flips))),
                                  x.framePut, size, groups)
  {
    var i, life, c := ProfilerPool.Handed(x.w.pool), Some(Idle(flips)), Handout(x, size);
    BeginKept(size, groups, flips);
    if i < |x.logs| {
      KeptSet(x.logs, x.w.pool.logs, now, x.framePut, size, groups, i, c, ProfilerPool.NewLog, life);
    } else {
      KeptPush(x.logs, x.w.pool.logs, now, x.framePut, size, groups, c, ProfilerPool.NewLog, life);
    }
  }

  lemma CountedBegin(t: Totals, past: Lives, now: Lives, i: nat, flips: nat, size: nat, groups: seq<nat>)
    requires size > 0 && IsTable(groups) && AreLives(past) && AreLives(now) && Counted(t, past, now, size, groups)
    requires i <= |now| && (i < |now| ==> now[i].None?)
    ensures var now' := Place(now, i, Some(Idle(flips))); AreLives(now') && Counted(t, past, now', size, groups)
  {
    var life := Some(Idle(flips));
    BeginKept(size, groups, flips);
    if i < |now| {
      CountedSame(t, past, now, now[i := life], size, groups);
    } else {
      CountedPush(t, past, now, life, size, groups);
    }
  }

  lemma PlaceAt(now: Lives, i: nat, life: Option<seq<Action>>)
    requires i <= |now|
    ensures var now' := Place(now, i, life);
            i < |now'| && |now| <= |now'| && now'[i] == life && forall k :: 0 <= k < |now| && k != i ==> now'[k] == now[k]
  {
  }

  lemma BeginOwners(w: ProfilerPool.World, free: seq<nat>, now: Lives, before: seq<Doing>, doings: seq<Doing>, t: nat)
    requires ProfilerPool.Inv(w, free) && Extends(doings, before, Begin(t)) && Owners(w.owner, now, before) && t !in w.owner
    requires ProfilerPool.Handed(w.pool) <= |now|
    ensures var i := ProfilerPool.Handed(w.pool); Owners(w.owner[t := i], Place(now, i, Some(Idle(FlipsIn(before)))), doings)
  {
    var i, life := ProfilerPool.Handed(w.pool), Some(Idle(FlipsIn(before)));
    HandedIsFree(w, free);
    PlaceAt(now, i, life);
    OwnersBegin(w.owner, now, before, doings, t, i, Place(now, i, life));
  }

  lemma BeginHas(x: System, groups: seq<nat>, size: nat, t: nat)
    requires size > 0 && IsSystem(x, size) && IsTable(groups) && t !in x.w.owner
    ensures var i := ProfilerPool.Handed(x.w.pool);
            Has(Perform(x, groups, size, Begin(t)), Place(x.logs, i, Handout(x, size)), ProfilerPool.Create(x.w.pool).logs,
                x.w.owner[t := i], x.framePut, x.t)
  {
  }

  lemma BeginPast(before: seq<Doing>, doings: seq<Doing>, t: nat)
    requires AreKnown(before) && Extends(doings, before, Begin(t))
    ensures Ended(doings) == Ended(before) && FlipsIn(doings) == FlipsIn(before)
  {
  }

  lemma BeginFollowed(x: System, before: seq<Doing>, now: Lives, free: seq<nat>, size: nat, groups: seq<nat>, doings: seq<Doing>, t: nat)
    requires size > 0 && IsTable(groups) && AreKnown(before) && Followed(x, before, now, free, size, groups)
    requires Extends(doings, before, Begin(t)) && t !in x.w.owner
    ensures Sequel(Perform(x, groups, size, Begin(t)), doings, size, groups)
  {
    var i, flips := ProfilerPool.Handed(x.w.pool), FlipsIn(before);
    var free' := ProfilerPool.StepKeeps(x.w, free, ProfilerPool.Begin(t));
    HandedIsFree(x.w, free);
    KeptBegin(x, now, size, groups, flips);
    CountedBegin(x.t, Ended(before), now, i, flips, size, groups);
    BeginOwners(x.w, free, now, before, doings, t);
    BeginPast(before, doings, t);
    BeginHas(x, groups, size, t);
    SequelOf(Perform(x, groups, size, Begin(t)), Place(x.logs, i, Handout(x, size)), ProfilerPool.Create(x.w.pool).logs,
             x.w.owner[t := i], x.framePut, x.t, doings, Place(now, i, Some(Idle(flips))), free', size, groups);
  }

  // A thread's log is its own and not the GPU's.
  lemma OwnLog(w: ProfilerPool.World, free: seq<nat>)
    requires ProfilerPool.Inv(w, free)
    ensures forall t :: t in w.owner ==> 0 < w.owner[t] < |w.pool.logs|
    ensures forall t, u :: t in w.owner && u in w.owner && t != u ==> w.owner[t] != w.owner[u]
  {
  }

  lemma EndBecomes(x: System, groups: seq<nat>, size: nat, t: nat)
    requires size > 0 && IsSystem(x, size) && IsTable(groups) && t in x.w.owner
    ensures var i, p := x.w.owner[t], x.w.pool;
            Has(Perform(x, groups, size, End(t)), x.logs[i := Emptied(x.logs[i])],
                p.logs[i := ProfilerPool.LogState(0, 0, false, p.logs[i].gpu, p.head)], x.w.owner - {t}, x.framePut, x.t)
  {
  }

  lemma KeptEnd(x: System, now: Lives, size: nat, groups: seq<nat>, i: nat)
    requires size > 0 && IsTable(groups) && IsSystem(x, size) && AllKept(x.logs, x.w.pool.logs, now, x.framePut, size, groups) && i < |now|
    ensures var p := x.w.pool;
            AllKept(x.logs[i := Emptied(x.logs[i])], p.logs[i := ProfilerPool.LogState(0, 0, false, p.logs[i].gpu, p.head)],
                    now[i := None], x.framePut, size, groups)
  {
    var p := x.w.pool;
    EndKept(x.logs[i], p.logs[i], now[i], x.framePut, size, groups, p.head);
    KeptSet(x.logs, p.logs, now, x.framePut, size, groups, i, Emptied(x.logs[i]), ProfilerPool.LogState(0, 0, false, p.logs[i].gpu, p.head), None);
  }

  lemma EndPast(before: seq<Doing>, doings: seq<Doing>, t: nat, i: nat, now: Lives)
    requires AreKnown(before) && Extends(doings, before, End(t)) && i < |now| && now[i].Some? && now[i] == History(before, t)
    ensures Ended(doings) == Ended(before) + [now[i]] && FlipsIn(doings) == FlipsIn(before)
  {
  }

  lemma EndFollowed(x: System, before: seq<Doing>, now: Lives, free: seq<nat>, size: nat, groups: seq<nat>, doings: seq<Doing>, t: nat)
    requires size > 0 && IsTable(groups) && AreKnown(before) && Followed(x, before, now, free, size, groups)
    requires Extends(doings, before, End(t)) && t in x.w.owner
    ensures Sequel(Perform(x, groups, size, End(t)), doings, size, groups)
  {
    var i, p, x' := x.w.owner[t], x.w.pool, Perform(x, groups, size, End(t));
    var free' := ProfilerPool.StepKeeps(x.w, free, ProfilerPool.End(t));
    OwnLog(x.w, free);
    EndPast(before, doings, t, i, now);
    KeptEnd(x, now, size, groups, i);
    CountedEnd(x.t, Ended(before), now, i, size, groups);
    OwnersEnd(x.w.owner, now, before, doings, t);
    EndBecomes(x, groups, size, t);
    SequelOf(x', x.logs[i := Emptied(x.logs[i])], p.logs[i := ProfilerPool.LogState(0, 0, false, p.logs[i].gpu, p.head)],
             x.w.owner - {t}, x.framePut, x.t, doings, now[i := None], free', size, groups);
  }

  // Log `i` takes an entry.
  lemma KeptRecord(x: System, now: Lives, size: nat, groups: seq<nat>, i: nat, e: Entry, c: Column)
    requires size > 0 && IsTable(groups) && IsSystem(x, size) && AllKept(x.logs, x.w.pool.logs, now, x.framePut, size, groups)
    requires i < |now| && now[i].Some? && Known(e) && c == Recorded(x.logs[i], e)
    ensures AllKept(x.logs[i := c], x.w.pool.logs[i := x.w.pool.logs[i].(put := c.ring.put)],
                    now[i := Some(now[i].value + [Write(e)])], x.framePut, size, groups)
  {
    RecordKept(x.logs[i], x.w.pool.logs[i], now[i].value, x.framePut, size, groups, e);
    KeptSet(x.logs, x.w.pool.logs, now, x.framePut, size, groups, i, c, x.w.pool.logs[i].(put := c.ring.put), Some(now[i].value + [Write(e)]));
  }

  lemma CountedRecord(x: System, past: Lives, now: Lives, size: nat, groups: seq<nat>, i: nat, e: Entry)
    requires size > 0 && IsTable(groups) && IsSystem(x, size) && AllKept(x.logs, x.w.pool.logs, now, x.framePut, size, groups)
    requires AreLives(now) && AreLives(past) && Counted(x.t, past, now, size, groups) && i < |now| && now[i].Some? && Known(e)
    ensures var now' := now[i := Some(now[i].value + [Write(e)])]; AreLives(now') && Counted(x.t, past, now', size, groups)
  {
    RecordKept(x.logs[i], x.w.pool.logs[i], now[i].value, x.framePut, size, groups, e);
    CountedSame(x.t, past, now, now[i := Some(now[i].value + [Write(e)])], size, groups);
  }

  lemma RecordHas(x: System, groups: seq<nat>, size: nat, t: nat, e: Entry)
    requires size > 0 && IsSystem(x, size) && IsTable(groups) && t in x.w.owner && Known(e)
    ensures var i := x.w.owner[t];
            var c := Recorded(x.logs[i], e);
            var x' := Perform(x, groups, size, Record(t, e));
            && Has(x', x.logs[i := c], x.w.pool.logs[i := x.w.pool.logs[i].(put := c.ring.put)], x.w.owner, x.framePut, x.t)
            && x'.w == ProfilerPool.Do(x.w, ProfilerPool.Log(t, c.ring.put))
  {
  }

  lemma GpuHas(x: System, groups: seq<nat>, size: nat, e: Entry)
    requires size > 0 && IsSystem(x, size) && IsTable(groups) && x.logs != [] && Known(e)
    ensures var c := Recorded(x.logs[0], e);
            Has(Perform(x, groups, size, RecordGpu(e)), x.logs[0 := c], x.w.pool.logs[0 := x.w.pool.logs[0].(put := c.ring.put)],
                x.w.owner, x.framePut, x.t)
  {
  }

  lemma RecordPast(before: seq<Doing>, doings: seq<Doing>, a: Doing)
    requires AreKnown(before) && Extends(doings, before, a) && (a.Record? || a.RecordGpu?)
    ensures Ended(doings) == Ended(before) && FlipsIn(doings) == FlipsIn(before)
  {
  }

  lemma RecordSequel(x: System, x': System, before: seq<Doing>, doings: seq<Doing>, a: Doing, now: Lives, free: seq<nat>, size: nat, groups: seq<nat>,
                     i: nat, e: Entry, c: Column)
    requires size > 0 && IsTable(groups) && AreKnown(before) && Extends(doings, before, a) && (a.Record? || a.RecordGpu?)
    requires IsSystem(x, size) && IsSystem(x', size) && AllKept(x.logs, x.w.pool.logs, now, x.framePut, size, groups) && AreLives(now)
    requires x.framePut == Slot(FlipsIn(before), FRAME_HISTORY) && Counted(x.t, Ended(before), now, size, groups)
    requires i < |now| && now[i].Some? && Known(e) && c == Recorded(x.logs[i], e)
    ensures && Has(x', x.logs[i := c], x.w.pool.logs[i := x.w.pool.logs[i].(put := c.ring.put)], x.w.owner, x.framePut, x.t)
            && ProfilerPool.Inv(x'.w, free) && Owners(x.w.owner, now[i := Some(now[i].value + [Write(e)])], doings)
            ==> Sequel(x', doings, size, groups)
  {
    KeptRecord(x, now, size, groups, i, e, c);
    CountedRecord(x, Ended(before), now, size, groups, i, e);
    RecordPast(before, doings, a);
    SequelOf(x', x.logs[i := c], x.w.pool.logs[i := x.w.pool.logs[i].(put := c.ring.put)],
             x.w.owner, x.framePut, x.t, doings, now[i := Some(now[i].value + [Write(e)])], free, size, groups);
  }

  lemma PoolRecords(w: ProfilerPool.World, free: seq<nat>, t: nat, put: nat) returns (free': seq<nat>)
    requires ProfilerPool.Inv(w, free)
    ensures ProfilerPool.Inv(ProfilerPool.Do(w, ProfilerPool.Log(t, put)), free')
  {
    free' := ProfilerPool.StepKeeps(w, free, ProfilerPool.Log(t, put));
  }

  lemma RecordFollowed(x: System, before: seq<Doing>, now: Lives, free: seq<nat>, size: nat, groups: seq<nat>,
                       doings: seq<Doing>, t: nat, e: Entry)
    requires size > 0 && IsTable(groups) && AreKnown(before) && Followed(x, before, now, free, size, groups)
    requires Extends(doings, before, Record(t, e)) && Known(e) && t in x.w.owner
    ensures Sequel(Perform(x, groups, size, Record(t, e)), doings, size, groups)
  {
    var i, x' := x.w.owner[t], Perform(x, groups, size, Record(t, e));
    var c := Recorded(x.logs[i], e);
    OwnLog(x.w, free);
    OwnersRecord(x.w.owner, now, before, doings, t, e);
    RecordHas(x, groups, size, t, e);
    var free' := PoolRecords(x.w, free, t, c.ring.put);
    RecordSequel(x, x', before, doings, Record(t, e), now, free', size, groups, i, e, c);
  }

  lemma GpuFollowed(x: System, before: seq<Doing>, now: Lives, free: seq<nat>, size: nat, groups: seq<nat>, doings: seq<Doing>, e: Entry)
    requires size > 0 && IsTable(groups) && AreKnown(before) && Followed(x, before, now, free, size, groups)
    requires Extends(doings, before, RecordGpu(e)) && Known(e)
    ensures Sequel(Perform(x, groups, size, RecordGpu(e)), doings, size, groups)
  {
    var c := Recorded(x.logs[0], e);
    var free' := ProfilerPool.StepKeeps(x.w, free, ProfilerPool.LogGpu(c.ring.put));
    OwnLog(x.w, free);
    OwnersGpu(x.w.owner, now, before, doings, e);
    GpuHas(x, groups, size, e);
    RecordSequel(x, Perform(x, groups, size, RecordGpu(e)), before, doings, RecordGpu(e), now, free', size, groups, 0, e, c);
  }

  lemma LogFlipped(c: Column, l: ProfilerPool.LogState, c': Column, l': ProfilerPool.LogState, size: nat, groups: seq<nat>, s: Replay)
    requires IsColumn(c, size) && IsTable(groups) && Formed(s) && InLog(s.stack, size) && SameStacks(Replayed(c, size, groups), s)
    requires c' == Column(Flip(c.ring), s) && l' == l.(get := l.put)
    ensures Flipped(c, l, c', l', size, groups)
  {
  }

  ghost predicate OneFrame(logs: seq<Column>, framePut: nat) {
    forall i :: 0 <= i < |logs| ==> logs[i].ring.framePut == framePut
  }

  lemma OneFlipped(x: System, groups: seq<nat>, size: nat, x': System, q: Pool, i: nat)
    requires IsTable(groups) && IsSystem(x, size) && x' == FlipLogs(x, groups, size) && i < |x.logs|
    requires q == ReplayedLogs(x.logs, size, groups, |x.logs|) && ReplayedTo(x.logs, size, groups, |x.logs|, q)
    ensures Flipped(x.logs[i], x.w.pool.logs[i], x'.logs[i], x'.w.pool.logs[i], size, groups)
    ensures x'.logs[i].ring.framePut == (x.logs[i].ring.framePut + 1) % FRAME_HISTORY
  {
    LogFlipped(x.logs[i], x.w.pool.logs[i], x'.logs[i], x'.w.pool.logs[i], size, groups, q.threads[i]);
  }

  lemma LogsFlipped(x: System, groups: seq<nat>, size: nat, x': System)
    requires IsTable(groups) && IsSystem(x, size) && OneFrame(x.logs, x.framePut) && x' == FlipLogs(x, groups, size)
    ensures AllFlipped(x.logs, x.w.pool.logs, x'.logs, x'.w.pool.logs, x'.framePut, size, groups)
  {
    LogsReplayed(x.logs, size, groups, |x.logs|);
    var q := ReplayedLogs(x.logs, size, groups, |x.logs|);
    forall i | 0 <= i < |x.logs|
      ensures Flipped(x.logs[i], x.w.pool.logs[i], x'.logs[i], x'.w.pool.logs[i], size, groups) && x'.logs[i].ring.framePut == x'.framePut
    {
      OneFlipped(x, groups, size, x', q, i);
    }
  }

  lemma TotalsFlipped(x: System, groups: seq<nat>, size: nat, x': System)
    requires IsSystem(x, size) && IsTable(groups) && x' == FlipLogs(x, groups, size)
    ensures x'.t == AddTotals(x.t, SumTo(Gains(x.logs, size, groups), |x.logs|))
  {
    LogsReplayed(x.logs, size, groups, |x.logs|);
  }

  lemma GainsAre(x: System, now: Lives, size: nat, groups: seq<nat>)
    requires size > 0 && IsTable(groups) && IsSystem(x, size) && AllKept(x.logs, x.w.pool.logs, now, x.framePut, size, groups)
    requires AreLives(now)
    ensures AreLives(AllAfterFlip(now))
    ensures forall i :: 0 <= i < |now| ==>
              LifeTotals(size, groups, AllAfterFlip(now)[i]) == AddTotals(LifeTotals(size, groups, now[i]), Gains(x.logs, size, groups)[i])
  {
    forall i | 0 <= i < |now|
      ensures now[i].Some? ==> IsHistory(AfterFlip(now[i]).value)
      ensures LifeTotals(size, groups, AfterFlip(now[i])) == AddTotals(LifeTotals(size, groups, now[i]), Gains(x.logs, size, groups)[i])
    {
      FlipAddsLife(x.logs[i], x.w.pool.logs[i], now[i], x.framePut, size, groups);
    }
  }

  lemma FlipPast(before: seq<Doing>, doings: seq<Doing>)
    requires AreKnown(before) && Extends(doings, before, FrameEnds)
    ensures Ended(doings) == Ended(before)
    ensures (Slot(FlipsIn(before), FRAME_HISTORY) + 1) % FRAME_HISTORY == Slot(FlipsIn(doings), FRAME_HISTORY)
  {
    NextFrame(FlipsIn(before));
  }

  lemma AllKeptFlip(x: System, now: Lives, size: nat, groups: seq<nat>, x': System)
    requires size > 0 && IsTable(groups) && IsSystem(x, size) && AllKept(x.logs, x.w.pool.logs, now, x.framePut, size, groups)
    requires x' == FlipLogs(x, groups, size)
    ensures AllKept(x'.logs, x'.w.pool.logs, AllAfterFlip(now), x'.framePut, size, groups)
  {
    LogsFlipped(x, groups, size, x');
    KeptFlip(x.logs, x.w.pool.logs, now, x.framePut, size, groups, x'.logs, x'.w.pool.logs, x'.framePut);
  }

  lemma CountedInFlip(x: System, past: Lives, now: Lives, size: nat, groups: seq<nat>, x': System)
    requires size > 0 && IsTable(groups) && IsSystem(x, size) && AllKept(x.logs, x.w.pool.logs, now, x.framePut, size, groups)
    requires AreLives(now) && AreLives(past) && Counted(x.t, past, now, size, groups) && x' == FlipLogs(x, groups, size)
    ensures AreLives(AllAfterFlip(now)) && Counted(x'.t, past, AllAfterFlip(now), size, groups)
  {
    TotalsFlipped(x, groups, size, x');
    GainsAre(x, now, size, groups);
    CountedFlip(x.t, past, now, AllAfterFlip(now), Gains(x.logs, size, groups), size, groups);
  }

  lemma FlipHas(x: System, groups: seq<nat>, size: nat, x': System, doings: seq<Doing>, before: seq<Doing>)
    requires size > 0 && IsSystem(x, size) && IsTable(groups) && x' == FlipLogs(x, groups, size)
    requires AreKnown(before) && Extends(doings, before, FrameEnds) && x.framePut == Slot(FlipsIn(before), FRAME_HISTORY)
    ensures Has(x', x'.logs, x'.w.pool.logs, x.w.owner, x'.framePut, x'.t) && x'.framePut == Slot(FlipsIn(doings), FRAME_HISTORY)
    ensures x'.w == ProfilerPool.Do(x.w, ProfilerPool.NextFrame)
  {
    FlipPast(before, doings);
  }

  lemma NextFrameOwners(w: ProfilerPool.World, free: seq<nat>) returns (free': seq<nat>)
    requires ProfilerPool.Inv(w, free)
    ensures var w' := ProfilerPool.Do(w, ProfilerPool.NextFrame); w'.owner == w.owner && ProfilerPool.Inv(w', free')
  {
    free' := ProfilerPool.StepKeeps(w, free, ProfilerPool.NextFrame);
  }

  lemma FlippedFollowed(x': System, w: ProfilerPool.World, before: seq<Doing>, now: Lives, free: seq<nat>, size: nat, groups: seq<nat>, doings: seq<Doing>)
    requires size > 0 && IsTable(groups) && AreKnown(before) && ProfilerPool.Inv(w, free) && Owners(w.owner, now, before)
    requires Extends(doings, before, FrameEnds) && IsSystem(x', size) && AreLives(AllAfterFlip(now))
    requires x'.w == ProfilerPool.Do(w, ProfilerPool.NextFrame)
    ensures && x'.framePut == Slot(FlipsIn(doings), FRAME_HISTORY)
            && AllKept(x'.logs, x'.w.pool.logs, AllAfterFlip(now), x'.framePut, size, groups)
            && Counted(x'.t, Ended(before), AllAfterFlip(now), size, groups)
            ==> Sequel(x', doings, size, groups)
  {
    var free' := NextFrameOwners(w, free);
    FlipPast(before, doings);
    OwnersFlip(w.owner, now, before, doings);
    assert Has(x', x'.logs, x'.w.pool.logs, w.owner, x'.framePut, x'.t);
    SequelOf(x', x'.logs, x'.w.pool.logs, w.owner, x'.framePut, x'.t, doings, AllAfterFlip(now), free', size, groups);
  }

  lemma FlipFollowed(x: System, before: seq<Doing>, now: Lives, free: seq<nat>, size: nat, groups: seq<nat>, doings: seq<Doing>)
    requires size > 0 && IsTable(groups) && AreKnown(before) && Followed(x, before, now, free, size, groups)
    requires Extends(doings, before, FrameEnds)
    ensures Sequel(FlipLogs(x, groups, size), doings, size, groups)
  {
    var x' := FlipLogs(x, groups, size);
    FlipHas(x, groups, size, x', doings, before);
    AllKeptFlip(x, now, size, groups, x');
    CountedInFlip(x, Ended(before), now, size, groups, x');
    FlippedFollowed(x', x.w, before, now, free, size, groups, doings);
  }

  lemma NothingDone(x: System, before: seq<Doing>, now: Lives, free: seq<nat>, size: nat, groups: seq<nat>, doings: seq<Doing>, a: Doing)
    requires size > 0 && IsTable(groups) && AreKnown(before) && Followed(x, before, now, free, size, groups) && Extends(doings, before, a)
    requires (a.Begin? && a.t in x.w.owner) || ((a.End? || a.Record?) && a.t !in x.w.owner)
    ensures Sequel(x, doings, size, groups)
  {
    OwnersSame(x.w.owner, now, before, doings, a);
    SequelOf(x, x.logs, x.w.pool.logs, x.w.owner, x.framePut, x.t, doings, now, free, size, groups);
  }

  lemma Performed(x: System, before: seq<Doing>, size: nat, groups: seq<nat>, doings: seq<Doing>, a: Doing)
    requires size > 0 && IsTable(groups) && AreKnown(before) && Extends(doings, before, a) && Sequel(x, before, size, groups)
    requires IsSystem(x, size)
    ensures KnownDoing(a) && Sequel(Perform(x, groups, size, a), doings, size, groups)
  {
    var now, free :| Followed(x, before, now, free, size, groups);
    match a
    case Begin(t) =>
      if t in x.w.owner { NothingDone(x, before, now, free, size, groups, doings, a); }
      else { BeginFollowed(x, before, now, free, size, groups, doings, t); }
    case End(t) =>
      if t in x.w.owner { EndFollowed(x, before, now, free, size, groups, doings, t); }
      else { NothingDone(x, before, now, free, size, groups, doings, a); }
    case Record(t, e) =>
      if t in x.w.owner { RecordFollowed(x, before, now, free, size, groups, doings, t, e); }
      else { NothingDone(x, before, now, free, size, groups, doings, a); }
    case RecordGpu(e) => GpuFollowed(x, before, now, free, size, groups, doings, e);
    case FrameEnds => FlipFollowed(x, before, now, free, size, groups, doings);
  }

  lemma StartFollowed(size: nat, groups: seq<nat>)
    requires size > 0 && IsTable(groups)
    ensures Sequel(RunSystem(size, groups, []), [], size, groups)
  {
    var x, now := RunSystem(size, groups, []), [Some(Idle(0))];
    var free := ProfilerPool.PoolKept([]);
    assert Idle(0) == [];
    BeginKept(size, groups, 0);
    AddNoTotals(NoTotals);
    assert Counted(x.t, [], now, size, groups);
    SequelOf(x, x.logs, x.w.pool.logs, x.w.owner, x.framePut, x.t, [], now, free, size, groups);
  }

  // In every run of any number of threads, each log in use holds what its thread alone would have left in
  // it, with none of the threads that had it before, and the counters are the sums over all threads.
  lemma {:induction false} ThreadsFollowed(size: nat, groups: seq<nat>, doings: seq<Doing>)
    requires size > 0 && IsTable(groups) && AreKnown(doings)
    ensures Sequel(RunSystem(size, groups, doings), doings, size, groups)
  {
    if doings == [] {
      StartFollowed(size, groups);
    } else {
      var before, a := doings[..|doings| - 1], doings[|doings| - 1];
      ThreadsFollowed(size, groups, before);
      Performed(RunSystem(size, groups, before), before, size, groups, doings, a);
    }
  }

  /* ---------- What follows for the threads ---------- */

  lemma {:induction false} WholeIsRun(size: nat, groups: seq<nat>, h: seq<Action>)
    requires size > 0 && IsTable(groups) && IsHistory(h)
    ensures RunWhole(size, groups, h).run == RunOf(size, h)
  {
    if h != [] {
      WholeIsRun(size, groups, h[..|h| - 1]);
    }
  }

  // What a log has accepted and replayed was written into it.
  lemma {:induction false} AcceptedWritten(size: nat, h: seq<Action>, e: Entry)
    requires size > 0 && e in RunOf(size, h).accepted
    ensures Write(e) in h
  {
    var before, last := h[..|h| - 1], h[|h| - 1];
    if e in RunOf(size, before).accepted {
      AcceptedWritten(size, before, e);
    } else {
      assert last == Write(e);
    }
  }

  lemma {:induction false} WrittenByThread(doings: seq<Doing>, t: nat, e: Entry)
    requires AreKnown(doings) && History(doings, t).Some? && Write(e) in History(doings, t).value
    ensures Record(t, e) in doings
  {
    var before, last := doings[..|doings| - 1], doings[|doings| - 1];
    if History(before, t).Some? && Write(e) in History(before, t).value {
      WrittenByThread(before, t, e);
    } else {
      assert last == Record(t, e);
    }
  }

  lemma OwnReplayed(size: nat, doings: seq<Doing>, t: nat)
    requires size > 0 && AreKnown(doings) && History(doings, t).Some?
    ensures var h := History(doings, t).value;
            && (forall e :: e in RunOf(size, h).accepted ==> Record(t, e) in doings)
            && (AlwaysSpanned(size, h) ==> forall e :: e in RunOf(size, h).replayed ==> Record(t, e) in doings)
  {
    var h := History(doings, t).value;
    forall e | e in RunOf(size, h).accepted
      ensures Record(t, e) in doings
    {
      AcceptedWritten(size, h, e);
      WrittenByThread(doings, t, e);
    }
    if AlwaysSpanned(size, h) {
      WindowsTile(size, h);
    }
  }

  // A thread's log is that of its own history from its beginning on, whoever had the log before; what has been
  // accepted into it and replayed from it, the thread itself has recorded.
  lemma OwnEntries(size: nat, groups: seq<nat>, doings: seq<Doing>, t: nat)
    requires size > 0 && IsTable(groups) && AreKnown(doings)
    ensures var x := RunSystem(size, groups, doings);
            && (t in x.w.owner <==> History(doings, t).Some?)
            && (t in x.w.owner ==>
                  var h := History(doings, t).value;
                  && x.w.owner[t] < |x.logs| && x.logs[x.w.owner[t]].ring == RunOf(size, h).ring
                  && (forall e :: e in RunOf(size, h).accepted ==> Record(t, e) in doings)
                  && (AlwaysSpanned(size, h) ==> forall e :: e in RunOf(size, h).replayed ==> Record(t, e) in doings))
  {
    var x := RunSystem(size, groups, doings);
    ThreadsFollowed(size, groups, doings);
    var now, free :| Followed(x, doings, now, free, size, groups);
    if t in x.w.owner {
      WholeIsRun(size, groups, History(doings, t).value);
      OwnReplayed(size, doings, t);
    }
  }

  /* ----- The time of all threads ----- */

  // The life of every log: the GPU's, those of the threads that have one, and none for a free log.
  ghost predicate AreLivesOf(x: System, doings: seq<Doing>, now: Lives)
    requires AreKnown(doings)
  {
    && |now| == |x.logs| == |x.w.pool.logs| && Owners(x.w.owner, now, doings)
    && forall i :: 0 <= i < |now| && now[i].Some? ==> x.w.pool.logs[i].active
  }

  lemma LivesUnique(x: System, doings: seq<Doing>, now: Lives, free: seq<nat>, size: nat, groups: seq<nat>, lives: Lives)
    requires size > 0 && IsTable(groups) && AreKnown(doings) && Followed(x, doings, now, free, size, groups) && AreLivesOf(x, doings, lives)
    ensures lives == now
  {
    forall i | 0 <= i < |now|
      ensures lives[i] == now[i]
    {
      if now[i].Some? && i > 0 {
        assert x.w.pool.logs[i].active && i in x.w.owner.Values;
        var t :| t in x.w.owner && x.w.owner[t] == i;
      }
    }
  }

  // What a thread did, up to the end of its last window, was `evs`: well nested, and never out of the
  // ring's reach.
  ghost predicate TrueLife(size: nat, groups: seq<nat>, life: Option<seq<Action>>, evs: seq<Event>)
    requires size > 0 && IsTable(groups)
  {
    if life.None? then evs == [] else
    && IsHistory(life.value) && Roomy(size, groups, life.value) && WellNested(evs)
    && var w := RunWhole(size, groups, life.value).run;
       Last(w.marks) <= |w.accepted| && Logged(w.accepted[..Last(w.marks)], evs)
  }

  ghost function GroupTime(evs: seq<Event>, groups: seq<nat>, g: nat): int {
    |Covered(evs, groups, g, |evs|)|
  }

  // A life accumulates the time that its group's timers cover, and with no timer open its busy time.
  lemma LifeTime(size: nat, groups: seq<nat>, life: Option<seq<Action>>, evs: seq<Event>, g: nat)
    requires size > 0 && IsTable(groups) && TrueLife(size, groups, life, evs) && (life.Some? ==> IsHistory(life.value)) && g < MAX_GROUPS
    ensures OpenIn(evs, groups, g, |evs|) == 0 ==> LifeTotals(size, groups, life).groupTicks[g] == GroupTime(evs, groups, g)
    ensures Open(evs, |evs|) == [] ==> Sum(LifeTotals(size, groups, life).exclusive) == GroupTime(evs, OneGroup(), 0)
  {
    if life.None? {
      SumZeros(MAX_TIMERS);
    } else {
      TotalsAreTrueTime(size, groups, life.value, evs);
    }
  }

  ghost predicate TrueLives(size: nat, groups: seq<nat>, lives: Lives, evs: seq<seq<Event>>)
    requires size > 0 && IsTable(groups)
  {
    |lives| == |evs| && forall i :: 0 <= i < |lives| ==> TrueLife(size, groups, lives[i], evs[i])
  }

  ghost function Times(evs: seq<seq<Event>>, groups: seq<nat>, g: nat): (s: seq<int>)
    ensures |s| == |evs|
  {
    seq(|evs|, i requires 0 <= i < |evs| => GroupTime(evs[i], groups, g))
  }

  ghost predicate NoneOpen(evs: seq<seq<Event>>, groups: seq<nat>, g: nat) {
    forall i :: 0 <= i < |evs| ==> OpenIn(evs[i], groups, g, |evs[i]|) == 0
  }

  ghost predicate AllIdle(evs: seq<seq<Event>>) {
    forall i :: 0 <= i < |evs| ==> Open(evs[i], |evs[i]|) == []
  }

  lemma SumNext(s: seq<int>, k: nat)
    requires k < |s|
    ensures Sum(s[..k + 1]) == Sum(s[..k]) + s[k]
  {
    assert s[..k + 1][..k] == s[..k];
  }

  lemma {:induction false} SumGroupTo(ts: seq<Totals>, times: seq<int>, g: nat, k: nat)
    requires AllTotals(ts) && |ts| == |times| && g < MAX_GROUPS && k <= |ts| && forall i :: 0 <= i < |ts| ==> ts[i].groupTicks[g] == times[i]
    ensures SumTo(ts, k).groupTicks[g] == Sum(times[..k])
  {
    if k > 0 {
      SumGroupTo(ts, times, g, k - 1);
      SumNext(times, k - 1);
    }
  }

  lemma {:induction false} SumBusyTo(ts: seq<Totals>, times: seq<int>, k: nat)
    requires AllTotals(ts) && |ts| == |times| && k <= |ts| && forall i :: 0 <= i < |ts| ==> Sum(ts[i].exclusive) == times[i]
    ensures Sum(SumTo(ts, k).exclusive) == Sum(times[..k])
  {
    if k == 0 {
      SumZeros(MAX_TIMERS);
    } else {
      SumBusyTo(ts, times, k - 1);
      SumPlus(SumTo(ts, k - 1).exclusive, ts[k - 1].exclusive);
      SumNext(times, k - 1);
    }
  }

  lemma SumGroup(ts: seq<Totals>, times: seq<int>, g: nat)
    requires AllTotals(ts) && |ts| == |times| && g < MAX_GROUPS && forall i :: 0 <= i < |ts| ==> ts[i].groupTicks[g] == times[i]
    ensures SumTo(ts, |ts|).groupTicks[g] == Sum(times)
  {
    SumGroupTo(ts, times, g, |ts|);
    assert times[..|ts|] == times;
  }

  lemma SumBusy(ts: seq<Totals>, times: seq<int>)
    requires AllTotals(ts) && |ts| == |times| && forall i :: 0 <= i < |ts| ==> Sum(ts[i].exclusive) == times[i]
    ensures Sum(SumTo(ts, |ts|).exclusive) == Sum(times)
  {
    SumBusyTo(ts, times, |ts|);
    assert times[..|ts|] == times;
  }

  lemma LifeTimeAt(size: nat, groups: seq<nat>, lives: Lives, evs: seq<seq<Event>>, g: nat, i: nat)
    requires size > 0 && IsTable(groups) && AreLives(lives) && i < |lives| == |evs| && g < MAX_GROUPS
    ensures TrueLife(size, groups, lives[i], evs[i]) ==>
              && (OpenIn(evs[i], groups, g, |evs[i]|) == 0 ==> Accumulated(size, groups, lives)[i].groupTicks[g] == Times(evs, groups, g)[i])
              && (Open(evs[i], |evs[i]|) == [] ==> Sum(Accumulated(size, groups, lives)[i].exclusive) == Times(evs, OneGroup(), 0)[i])
  {
    if TrueLife(size, groups, lives[i], evs[i]) {
      LifeTime(size, groups, lives[i], evs[i], g);
    }
  }

  lemma GroupTimes(size: nat, groups: seq<nat>, lives: Lives, evs: seq<seq<Event>>, g: nat)
    requires size > 0 && IsTable(groups) && AreLives(lives) && TrueLives(size, groups, lives, evs) && NoneOpen(evs, groups, g)
    requires g < MAX_GROUPS
    ensures SumTo(Accumulated(size, groups, lives), |lives|).groupTicks[g] == Sum(Times(evs, groups, g))
  {
    forall i | 0 <= i < |lives|
      ensures Accumulated(size, groups, lives)[i].groupTicks[g] == Times(evs, groups, g)[i]
    {
      LifeTimeAt(size, groups, lives, evs, g, i);
    }
    SumGroup(Accumulated(size, groups, lives), Times(evs, groups, g), g);
  }

  lemma BusyTimes(size: nat, groups: seq<nat>, lives: Lives, evs: seq<seq<Event>>)
    requires size > 0 && IsTable(groups) && AreLives(lives) && TrueLives(size, groups, lives, evs) && AllIdle(evs)
    ensures Sum(SumTo(Accumulated(size, groups, lives), |lives|).exclusive) == Sum(Times(evs, OneGroup(), 0))
  {
    forall i | 0 <= i < |lives|
      ensures Sum(Accumulated(size, groups, lives)[i].exclusive) == Times(evs, OneGroup(), 0)[i]
    {
      LifeTimeAt(size, groups, lives, evs, 0, i);
    }
    SumBusy(Accumulated(size, groups, lives), Times(evs, OneGroup(), 0));
  }

  lemma CountedLives(size: nat, groups: seq<nat>, doings: seq<Doing>, now: Lives)
    requires size > 0 && IsTable(groups) && AreKnown(doings) && AreLivesOf(RunSystem(size, groups, doings), doings, now)
    ensures AreLives(now) && Counted(RunSystem(size, groups, doings).t, Ended(doings), now, size, groups)
  {
    var x := RunSystem(size, groups, doings);
    ThreadsFollowed(size, groups, doings);
    var lives, free :| Followed(x, doings, lives, free, size, groups);
    LivesUnique(x, doings, lives, free, size, groups, now);
  }

  // In every run of any number of threads whose entries were well nested and stayed in the ring's reach: the
  // ticks of a group that no thread has open are the sums, over all threads that ever were, of the time that
  // the thread's timers of the group cover.
  lemma ThreadsTrueTime(size: nat, groups: seq<nat>, doings: seq<Doing>, now: Lives, nowEvs: seq<seq<Event>>, pastEvs: seq<seq<Event>>, g: nat)
    requires size > 0 && IsTable(groups) && AreKnown(doings) && AreLivesOf(RunSystem(size, groups, doings), doings, now)
    requires TrueLives(size, groups, now, nowEvs) && TrueLives(size, groups, Ended(doings), pastEvs)
    requires g < MAX_GROUPS && NoneOpen(nowEvs, groups, g) && NoneOpen(pastEvs, groups, g)
    ensures RunSystem(size, groups, doings).t.groupTicks[g] == Sum(Times(pastEvs, groups, g)) + Sum(Times(nowEvs, groups, g))
  {
    CountedLives(size, groups, doings, now);
    GroupTimes(size, groups, Ended(doings), pastEvs, g);
    GroupTimes(size, groups, now, nowEvs, g);
  }

  // With no timer open at all, the exclusive ticks are the sum of the threads' busy times.
  lemma ThreadsBusyTime(size: nat, groups: seq<nat>, doings: seq<Doing>, now: Lives, nowEvs: seq<seq<Event>>, pastEvs: seq<seq<Event>>)
    requires size > 0 && IsTable(groups) && AreKnown(doings) && AreLivesOf(RunSystem(size, groups, doings), doings, now)
    requires TrueLives(size, groups, now, nowEvs) && TrueLives(size, groups, Ended(doings), pastEvs)
    requires AllIdle(nowEvs) && AllIdle(pastEvs)
    ensures Sum(RunSystem(size, groups, doings).t.exclusive) == Sum(Times(pastEvs, OneGroup(), 0)) + Sum(Times(nowEvs, OneGroup(), 0))
  {
    CountedLives(size, groups, doings, now);
    BusyTimes(size, groups, Ended(doings), pastEvs);
    BusyTimes(size, groups, now, nowEvs);
    SumPlus(SumTo(Accumulated(size, groups, Ended(doings)), |Ended(doings)|).exclusive, SumTo(Accumulated(size, groups, now), |now|).exclusive);
  }

  /* ----- The time of one timer in all threads ----- */

  lemma {:induction false} SumTicks(ts: seq<Totals>, i: nat, values: seq<int>, k: nat)
    requires AllTotals(ts) && |ts| == |values| && i < MAX_TIMERS && k <= |ts| && forall j :: 0 <= j < |ts| ==> ts[j].ticks[i] == values[j]
    ensures SumTo(ts, k).ticks[i] == Sum(values[..k])
  {
    if k > 0 {
      SumTicks(ts, i, values, k - 1);
      SumNext(values, k - 1);
    }
  }

  lemma {:induction false} SumCounts(ts: seq<Totals>, i: nat, values: seq<int>, k: nat)
    requires AllTotals(ts) && |ts| == |values| && i < MAX_TIMERS && k <= |ts| && forall j :: 0 <= j < |ts| ==> ts[j].count[i] == values[j]
    ensures SumTo(ts, k).count[i] == Sum(values[..k])
  {
    if k > 0 {
      SumCounts(ts, i, values, k - 1);
      SumNext(values, k - 1);
    }
  }

  lemma {:induction false} SumOwn(ts: seq<Totals>, i: nat, values: seq<int>, k: nat)
    requires AllTotals(ts) && |ts| == |values| && i < MAX_TIMERS && k <= |ts| && forall j :: 0 <= j < |ts| ==> ts[j].exclusive[i] == values[j]
    ensures SumTo(ts, k).exclusive[i] == Sum(values[..k])
  {
    if k > 0 {
      SumOwn(ts, i, values, k - 1);
      SumNext(values, k - 1);
    }
  }

  lemma WholeOf(s: seq<int>)
    ensures s[..|s|] == s
  {
  }

  ghost function TimerTimes(evs: seq<seq<Event>>, i: nat): (s: seq<int>)
    ensures |s| == |evs|
  {
    seq(|evs|, k requires 0 <= k < |evs| => TimeOf(evs[k], i, |evs[k]|))
  }

  ghost function TimerCounts(evs: seq<seq<Event>>, i: nat): (s: seq<int>)
    ensures |s| == |evs|
  {
    seq(|evs|, k requires 0 <= k < |evs| => TimesClosed(evs[k], i, |evs[k]|))
  }

  ghost function TimerOwn(evs: seq<seq<Event>>, i: nat): (s: seq<int>)
    ensures |s| == |evs|
  {
    seq(|evs|, k requires 0 <= k < |evs| => |OwnTime(evs[k], i, |evs[k]|)|)
  }

  lemma TimerAt(size: nat, groups: seq<nat>, lives: Lives, evs: seq<seq<Event>>, i: nat, k: nat)
    requires size > 0 && IsTable(groups) && AreLives(lives) && k < |lives| == |evs| && i < MAX_TIMERS
    ensures TrueLife(size, groups, lives[k], evs[k]) ==>
              var t := Accumulated(size, groups, lives)[k];
              t.ticks[i] == TimerTimes(evs, i)[k] && t.count[i] == TimerCounts(evs, i)[k] && t.exclusive[i] == TimerOwn(evs, i)[k]
  {
    if TrueLife(size, groups, lives[k], evs[k]) && lives[k].Some? {
      TimersAreTrueTime(size, groups, lives[k].value, evs[k], i);
    }
  }

  // Each life has accumulated what its timer took.
  ghost predicate TimersHold(ts: seq<Totals>, evs: seq<seq<Event>>, i: nat)
    requires AllTotals(ts) && |ts| == |evs| && i < MAX_TIMERS
  {
    forall k :: 0 <= k < |ts| ==>
      ts[k].ticks[i] == TimerTimes(evs, i)[k] && ts[k].count[i] == TimerCounts(evs, i)[k] && ts[k].exclusive[i] == TimerOwn(evs, i)[k]
  }

  lemma TimersSummed(ts: seq<Totals>, evs: seq<seq<Event>>, i: nat)
    requires AllTotals(ts) && |ts| == |evs| && i < MAX_TIMERS && TimersHold(ts, evs, i)
    ensures var t := SumTo(ts, |ts|);
            && t.ticks[i] == Sum(TimerTimes(evs, i)) && t.count[i] == Sum(TimerCounts(evs, i)) && t.exclusive[i] == Sum(TimerOwn(evs, i))
  {
    SumTicks(ts, i, TimerTimes(evs, i), |ts|);
    SumCounts(ts, i, TimerCounts(evs, i), |ts|);
    SumOwn(ts, i, TimerOwn(evs, i), |ts|);
    WholeOf(TimerTimes(evs, i));
    WholeOf(TimerCounts(evs, i));
    WholeOf(TimerOwn(evs, i));
  }

  lemma TimerSums(size: nat, groups: seq<nat>, lives: Lives, evs: seq<seq<Event>>, i: nat)
    requires size > 0 && IsTable(groups) && AreLives(lives) && TrueLives(size, groups, lives, evs) && i < MAX_TIMERS
    ensures var t := SumTo(Accumulated(size, groups, lives), |lives|);
            && t.ticks[i] == Sum(TimerTimes(evs, i)) && t.count[i] == Sum(TimerCounts(evs, i)) && t.exclusive[i] == Sum(TimerOwn(evs, i))
  {
    var ts := Accumulated(size, groups, lives);
    forall k | 0 <= k < |lives|
      ensures ts[k].ticks[i] == TimerTimes(evs, i)[k] && ts[k].count[i] == TimerCounts(evs, i)[k] && ts[k].exclusive[i] == TimerOwn(evs, i)[k]
    {
      TimerAt(size, groups, lives, evs, i, k);
    }
    TimersSummed(ts, evs, i);
  }

  // A timer's ticks are the lengths of its closed intervals in all threads that ever were, its count is their
  // number, and its exclusive ticks are the time in which one of them is innermost in its thread.
  lemma ThreadsTimerTime(size: nat, groups: seq<nat>, doings: seq<Doing>, now: Lives, nowEvs: seq<seq<Event>>, pastEvs: seq<seq<Event>>, i: nat)
    requires size > 0 && IsTable(groups) && AreKnown(doings) && AreLivesOf(RunSystem(size, groups, doings), doings, now)
    requires TrueLives(size, groups, now, nowEvs) && TrueLives(size, groups, Ended(doings), pastEvs) && i < MAX_TIMERS
    ensures var t := RunSystem(size, groups, doings).t;
            && t.ticks[i] == Sum(TimerTimes(pastEvs, i)) + Sum(TimerTimes(nowEvs, i))
            && t.count[i] == Sum(TimerCounts(pastEvs, i)) + Sum(TimerCounts(nowEvs, i))
            && t.exclusive[i] == Sum(TimerOwn(pastEvs, i)) + Sum(TimerOwn(nowEvs, i))
  {
    CountedLives(size, groups, doings, now);
    TimerSums(size, groups, Ended(doings), pastEvs, i);
    TimerSums(size, groups, now, nowEvs, i);
  }
}
