/**
 The pool of thread logs: logs of threads that have ended are chained through `nFreeListNext` and
 handed to the next threads; log 0 is the GPU's.
 */
module ProfilerPool {
  import ProfilerRing

  const MAX_THREADS := 32
  const FRAMES := ProfilerRing.FRAME_HISTORY

  datatype LogState = LogState(put: nat, get: nat, active: bool, gpu: bool, next: int)

  datatype Pool = Pool(logs: seq<LogState>, head: int)

  // The links stay inside the pool.
  ghost predicate Linked(p: Pool) {
    -1 <= p.head < |p.logs| && forall i :: 0 <= i < |p.logs| ==> -1 <= p.logs[i].next < |p.logs|
  }

  const NewLog := LogState(0, 0, true, false, -1)

  function Create(p: Pool): (p': Pool)
    requires Linked(p)
    ensures Linked(p')
  {
    if p.head != -1 then Pool(p.logs[p.head := NewLog], p.logs[p.head].next) else Pool(p.logs + [NewLog], -1)
  }

  // The log that a create hands out.
  function Handed(p: Pool): (i: nat)
    requires Linked(p)
  {
    if p.head != -1 then p.head else |p.logs|
  }

  function Exit(p: Pool, i: nat): (p': Pool)
    requires Linked(p) && i < |p.logs|
    ensures Linked(p')
  {
    Pool(p.logs[i := LogState(0, 0, false, p.logs[i].gpu, p.head)], i)
  }

  function Flip(p: Pool): (p': Pool)
    requires Linked(p)
    ensures Linked(p') && |p'.logs| == |p.logs|
  {
    p.(logs := seq(|p.logs|, i requires 0 <= i < |p.logs| => p.logs[i].(get := p.logs[i].put)))
  }

  function Write(p: Pool, i: nat, put: nat): (p': Pool)
    requires Linked(p) && i < |p.logs|
    ensures Linked(p')
  {
    p.(logs := p.logs[i := p.logs[i].(put := put)])
  }

  /* ---------- The free list ---------- */

  // Following the links from `head` gives `free` and ends.
  ghost predicate Chain(logs: seq<LogState>, head: int, free: seq<nat>)
    decreases |free|
  {
    if free == [] then head == -1
    else head == free[0] && free[0] < |logs| && Chain(logs, logs[free[0]].next, free[1..])
  }

  ghost predicate NoDuplicates(s: seq<nat>) {
    forall i, j :: 0 <= i < j < |s| ==> s[i] != s[j]
  }

  // The free list: it ends, has no log twice, and holds exactly the inactive logs.
  ghost predicate IsFreeList(p: Pool, free: seq<nat>) {
    && Chain(p.logs, p.head, free) && NoDuplicates(free)
    && (forall i :: i in free ==> i < |p.logs|)
    && forall i: nat :: i < |p.logs| ==> (i in free <==> !p.logs[i].active)
  }

  // The free logs are empty, and log 0 is the GPU's and not free.
  ghost predicate Clean(p: Pool) {
    && |p.logs| > 0 && p.logs[0].gpu && p.logs[0].active
    && forall i :: 0 <= i < |p.logs| && !p.logs[i].active ==> p.logs[i].put == 0 && p.logs[i].get == 0
  }

  lemma {:induction false} ChainKept(logs: seq<LogState>, logs': seq<LogState>, head: int, free: seq<nat>)
    requires Chain(logs, head, free) && |logs| <= |logs'|
    requires forall i :: i in free && i < |logs| ==> logs'[i].next == logs[i].next
    ensures Chain(logs', head, free)
    decreases |free|
  {
    if free != [] {
      ChainKept(logs, logs', logs[free[0]].next, free[1..]);
    }
  }

  lemma CreateFromFree(p: Pool, free: seq<nat>)
    requires Linked(p) && IsFreeList(p, free) && Clean(p) && p.head != -1
    ensures free != [] && p.head == free[0] && IsFreeList(Create(p), free[1..]) && Clean(Create(p))
  {
    var logs' := Create(p).logs;
    var i := free[0];
    assert forall j :: j in free[1..] ==> j in free;
    assert i !in free[1..];
    ChainKept(p.logs, logs', p.logs[i].next, free[1..]);
    assert forall j :: j in free <==> j == i || j in free[1..] by {
      assert free == [free[0]] + free[1..];
    }
  }

  lemma CreateGrows(p: Pool, free: seq<nat>)
    requires Linked(p) && IsFreeList(p, free) && Clean(p) && p.head == -1
    ensures free == [] && IsFreeList(Create(p), []) && Clean(Create(p))
  {
    assert forall i: nat :: i < |p.logs| ==> p.logs[i].active;
  }

  lemma ExitFrees(p: Pool, free: seq<nat>, i: nat)
    requires Linked(p) && IsFreeList(p, free) && Clean(p) && 0 < i < |p.logs| && p.logs[i].active
    ensures IsFreeList(Exit(p, i), [i] + free) && Clean(Exit(p, i))
  {
    assert i !in free;
    ChainKept(p.logs, Exit(p, i).logs, p.head, free);
    assert ([i] + free)[1..] == free;
  }

  lemma WriteKeeps(p: Pool, free: seq<nat>, i: nat, put: nat)
    requires Linked(p) && IsFreeList(p, free) && Clean(p) && i < |p.logs| && p.logs[i].active
    ensures IsFreeList(Write(p, i, put), free) && Clean(Write(p, i, put))
  {
    ChainKept(p.logs, Write(p, i, put).logs, p.head, free);
  }

  lemma FlipKeeps(p: Pool, free: seq<nat>)
    requires Linked(p) && IsFreeList(p, free) && Clean(p)
    ensures IsFreeList(Flip(p), free) && Clean(Flip(p))
  {
    ChainKept(p.logs, Flip(p).logs, p.head, free);
  }

  // A second exit with the same log makes the list endless, whatever the pool.
  lemma {:induction false} SecondExitLoops(p: Pool, i: nat, free: seq<nat>)
    requires Linked(p) && i < |p.logs|
    ensures !Chain(Exit(Exit(p, i), i).logs, i, free)
    decreases |free|
  {
    if free != [] {
      SecondExitLoops(p, i, free[1..]);
    }
  }

  /* ---------- Threads ---------- */

  datatype Action = Begin(thread: nat) | End(thread: nat) | Log(thread: nat, put: nat) | LogGpu(put: nat) | NextFrame

  // The pool, the log of every live thread, and the greatest number of threads alive at one time.
  datatype World = World(pool: Pool, owner: map<nat, nat>, peak: nat)

  const Start := World(Pool([LogState(0, 0, true, true, -1)], -1), map[], 0)

  ghost predicate Owned(w: World) {
    Linked(w.pool) && forall t :: t in w.owner ==> w.owner[t] < |w.pool.logs|
  }

  // A thread begins once, while it has no log, and ends at most once, with the log it has.
  ghost function Do(w: World, a: Action): (w': World)
    requires Owned(w)
    ensures Owned(w')
  {
    match a
    case Begin(t) => if t in w.owner then w else
      World(Create(w.pool), w.owner[t := Handed(w.pool)], if |w.owner| + 1 > w.peak then |w.owner| + 1 else w.peak)
    case End(t) => if t !in w.owner then w else
      World(Exit(w.pool, w.owner[t]), w.owner - {t}, w.peak)
    case Log(t, put) => if t !in w.owner then w else w.(pool := Write(w.pool, w.owner[t], put))
    case LogGpu(put) => if w.pool.logs == [] then w else w.(pool := Write(w.pool, 0, put))
    case NextFrame => w.(pool := Flip(w.pool))
  }

  // Every live thread has a log of its own, active and not the GPU's; every active log but the
  // GPU's has its thread.
  ghost predicate Exclusive(w: World) {
    && Owned(w) && Matched(w.pool.logs, w.owner)
    && forall t, u :: t in w.owner && u in w.owner && t != u ==> w.owner[t] != w.owner[u]
  }

  ghost predicate Inv(w: World, free: seq<nat>) {
    && Exclusive(w) && IsFreeList(w.pool, free) && Clean(w.pool)
    && |w.pool.logs| == 1 + |w.owner| + |free| && |w.pool.logs| == 1 + w.peak
  }

  // A log that is new to the owners, given to a thread that has none.
  lemma BeginOwns(owner: map<nat, nat>, t: nat, i: nat)
    requires t !in owner && i !in owner.Values
    requires forall t, u :: t in owner && u in owner && t != u ==> owner[t] != owner[u]
    ensures var owner' := owner[t := i];
            && (forall t, u :: t in owner' && u in owner' && t != u ==> owner'[t] != owner'[u])
            && i in owner'.Values && |owner'| == |owner| + 1
            && forall k :: k in owner.Values ==> k in owner'.Values
  {
    var owner' := owner[t := i];
    assert owner'[t] == i;
    forall k | k in owner.Values
      ensures k in owner'.Values
    {
      var u :| u in owner && owner[u] == k;
      assert owner'[u] == k;
    }
  }

  lemma HandedIsNew(w: World, free: seq<nat>)
    requires Inv(w, free)
    ensures Handed(w.pool) != 0 && Handed(w.pool) !in w.owner.Values
  {
    if w.pool.head != -1 {
      assert free[0] in free;
    }
  }

  // Every owner has an active log that is not the GPU's, and every such log an owner.
  ghost predicate Matched(logs: seq<LogState>, owner: map<nat, nat>) {
    && (forall t :: t in owner ==> 0 < owner[t] < |logs| && logs[owner[t]].active)
    && forall i :: 0 < i < |logs| && logs[i].active ==> i in owner.Values
  }

  lemma BeginMatches(logs: seq<LogState>, logs': seq<LogState>, owner: map<nat, nat>, t: nat, i: nat)
    requires Matched(logs, owner) && t !in owner && 0 < i < |logs'| && logs'[i].active && |logs| <= |logs'|
    requires forall k :: 0 <= k < |logs| && k != i ==> logs'[k] == logs[k]
    requires |logs'| <= |logs| + 1 && (|logs'| > |logs| ==> i == |logs|)
    requires i in owner[t := i].Values && forall k :: k in owner.Values ==> k in owner[t := i].Values
    ensures Matched(logs', owner[t := i])
  {
    forall k | 0 < k < |logs'| && logs'[k].active
      ensures k in owner[t := i].Values
    {
      assert k != i ==> logs[k].active && k in owner.Values;
    }
  }

  lemma EndMatches(logs: seq<LogState>, owner: map<nat, nat>, t: nat, ended: LogState)
    requires Matched(logs, owner) && t in owner && !ended.active && owner[t] !in (owner - {t}).Values
    requires forall k :: k in owner.Values && k != owner[t] ==> k in (owner - {t}).Values
    ensures Matched(logs[owner[t] := ended], owner - {t})
  {
    var owner', logs' := owner - {t}, logs[owner[t] := ended];
    forall u | u in owner'
      ensures owner'[u] != owner[t]
    {
      assert owner'[u] in owner'.Values;
    }
    forall k | 0 < k < |logs'| && logs'[k].active
      ensures k in owner'.Values
    {
      assert k != owner[t] && logs[k].active && k in owner.Values;
    }
  }

  lemma BeginExclusive(w: World, free: seq<nat>, t: nat)
    requires Inv(w, free) && t !in w.owner
    ensures Exclusive(Do(w, Begin(t)))
  {
    HandedIsNew(w, free);
    BeginOwns(w.owner, t, Handed(w.pool));
    CreateActivates(w.pool);
    BeginMatches(w.pool.logs, Create(w.pool).logs, w.owner, t, Handed(w.pool));
  }

  // The log handed out becomes active, and no other changes.
  lemma CreateActivates(p: Pool)
    requires Linked(p)
    ensures var p', i := Create(p), Handed(p);
            && i < |p'.logs| && p'.logs[i] == NewLog && |p.logs| <= |p'.logs| <= |p.logs| + 1
            && (|p'.logs| > |p.logs| ==> i == |p.logs|)
            && forall k :: 0 <= k < |p.logs| && k != i ==> p'.logs[k] == p.logs[k]
  {
  }

  lemma BeginKeeps(w: World, free: seq<nat>, t: nat) returns (free': seq<nat>)
    requires Inv(w, free) && t !in w.owner
    ensures Inv(Do(w, Begin(t)), free')
    ensures |Do(w, Begin(t)).pool.logs| > |w.pool.logs| <==> free == []
  {
    BeginExclusive(w, free, t);
    assert |w.owner[t := Handed(w.pool)]| == |w.owner| + 1;
    if w.pool.head != -1 {
      CreateFromFree(w.pool, free);
      free' := free[1..];
    } else {
      CreateGrows(w.pool, free);
      free' := [];
    }
  }

  lemma EndOwns(owner: map<nat, nat>, t: nat)
    requires t in owner
    requires forall t, u :: t in owner && u in owner && t != u ==> owner[t] != owner[u]
    ensures var owner' := owner - {t};
            && (forall t, u :: t in owner' && u in owner' && t != u ==> owner'[t] != owner'[u])
            && owner[t] !in owner'.Values && |owner'| == |owner| - 1
            && forall k :: k in owner.Values && k != owner[t] ==> k in owner'.Values
  {
    var owner' := owner - {t};
    assert owner == owner'[t := owner[t]];
    forall k | k in owner.Values && k != owner[t]
      ensures k in owner'.Values
    {
      var u :| u in owner && owner[u] == k;
      assert owner'[u] == k;
    }
  }

  lemma EndExclusive(w: World, t: nat)
    requires Exclusive(w) && t in w.owner
    ensures Exclusive(Do(w, End(t)))
  {
    EndOwns(w.owner, t);
    var i := w.owner[t];
    EndMatches(w.pool.logs, w.owner, t, LogState(0, 0, false, w.pool.logs[i].gpu, w.pool.head));
  }

  lemma EndKeeps(w: World, free: seq<nat>, t: nat) returns (free': seq<nat>)
    requires Inv(w, free) && t in w.owner
    ensures Inv(Do(w, End(t)), free')
  {
    ExitFrees(w.pool, free, w.owner[t]);
    EndExclusive(w, t);
    EndOwns(w.owner, t);
    free' := [w.owner[t]] + free;
  }

  lemma StepKeeps(w: World, free: seq<nat>, a: Action) returns (free': seq<nat>)
    requires Inv(w, free)
    ensures Inv(Do(w, a), free')
  {
    free' := free;
    match a
    case Begin(t) => if t !in w.owner { free' := BeginKeeps(w, free, t); }
    case End(t) => if t in w.owner { free' := EndKeeps(w, free, t); }
    case Log(t, put) => if t in w.owner { WriteKeeps(w.pool, free, w.owner[t], put); }
    case LogGpu(put) => WriteKeeps(w.pool, free, 0, put);
    case NextFrame => FlipKeeps(w.pool, free);
  }

  ghost function RunOf(actions: seq<Action>): (w: World)
    ensures Owned(w)
  {
    if actions == [] then Start else Do(RunOf(actions[..|actions| - 1]), actions[|actions| - 1])
  }

  // After any actions there is a free list of exactly the inactive logs, all of them empty and none
  // the GPU's; no log has two threads; and the pool has grown to one log for the GPU and one for
  // each thread alive when most were.
  lemma {:induction false} PoolKept(actions: seq<Action>) returns (free: seq<nat>)
    ensures Inv(RunOf(actions), free)
  {
    if actions == [] {
      free := [];
    } else {
      var before := PoolKept(actions[..|actions| - 1]);
      free := StepKeeps(RunOf(actions[..|actions| - 1]), before, actions[|actions| - 1]);
    }
  }

  /* ---------- The pool of the source ---------- */

  class ThreadLog {
    var nPut: nat
    var nGet: nat
    var nActive: bool
    var nGpu: bool
    var nFreeListNext: int

    constructor ()
      ensures nPut == 0 && nGet == 0 && !nActive && !nGpu && nFreeListNext == 0
    {
      nPut, nGet, nActive, nGpu, nFreeListNext := 0, 0, false, false, 0;
    }

    ghost function State(): LogState
      reads this
    {
      LogState(nPut, nGet, nActive, nGpu, nFreeListNext)
    }

    method Reset()
      modifies this
      ensures nPut == 0 && nGet == 0 && !nActive && !nGpu && nFreeListNext == 0
    {
      nPut, nGet, nActive, nGpu, nFreeListNext := 0, 0, false, false, 0;
    }
  }

  class Profiler {
    const Pool: array<ThreadLog?>
    const nLogStart: array2<nat>
    var nFramePut: nat
    var nNumLogs: nat
    var nFreeListHead: int

    ghost predicate Shaped()
      reads this, Pool
    {
      && Pool.Length == MAX_THREADS && nNumLogs <= MAX_THREADS
      && nLogStart.Length0 == FRAMES && nLogStart.Length1 == MAX_THREADS && nFramePut < FRAMES
      && (forall i :: 0 <= i < MAX_THREADS ==> (Pool[i] != null <==> i < nNumLogs))
      && forall i, j :: 0 <= i < j < nNumLogs ==> Pool[i] != Pool[j]
    }

    // The pool as a value.
    ghost predicate Is(p: Pool)
      reads this, Pool, Pool[..]
    {
      && Shaped() && |p.logs| == nNumLogs && p.head == nFreeListHead
      && forall i :: 0 <= i < nNumLogs ==> Pool[i] in Pool[..] && Pool[i].State() == p.logs[i]
    }

    // The pool with the GPU's log in it, and an empty frame table.
    constructor ()
      ensures Is(Start.pool) && fresh(Pool) && fresh(Pool[0]) && fresh(nLogStart)
      ensures forall f, k :: 0 <= f < FRAMES && 0 <= k < MAX_THREADS ==> nLogStart[f, k] == 0
    {
      var gpu := new ThreadLog();
      gpu.nActive, gpu.nGpu, gpu.nFreeListNext := true, true, -1;
      var pool := new ThreadLog?[MAX_THREADS](_ => null);
      pool[0] := gpu;
      Pool, nNumLogs, nFreeListHead := pool, 1, -1;
      nLogStart, nFramePut := new nat[512, 32]((_, _) => 0), 0;
    }

    // The log on the list, or else a new one at the end of the pool.
    method CreateThreadLog(ghost p: Pool) returns (log: ThreadLog)
      requires Is(p) && Linked(p) && (p.head == -1 ==> |p.logs| < MAX_THREADS)
      modifies this, Pool, Pool[..]
      ensures Is(Create(p)) && log == Pool[Handed(p)]
    {
      if nFreeListHead != -1 {
        log := Pool[nFreeListHead];
        nFreeListHead := log.nFreeListNext;
        log.Reset();
      } else {
        log := new ThreadLog();
        Pool[nNumLogs] := log;
        nNumLogs := nNumLogs + 1;
      }
      log.nFreeListNext := -1;
      log.nActive := true;
    }

    // The log's place in the pool is found by comparing references; its column of the frame table is cleared.
    method OnThreadExit(log: ThreadLog, ghost p: Pool, ghost i: nat)
      requires Is(p) && Linked(p) && i < |p.logs| && Pool[i] == log
      modifies this, Pool[..], nLogStart
      ensures Is(Exit(p, i)) && nFramePut == old(nFramePut)
      ensures forall f, k :: 0 <= f < FRAMES && 0 <= k < MAX_THREADS ==> nLogStart[f, k] == if k == i then 0 else old(nLogStart[f, k])
    {
      var logIndex := 0;
      while Pool[logIndex] != log
        invariant 0 <= logIndex <= i
        decreases i - logIndex
      {
        logIndex := logIndex + 1;
      }
      log.nFreeListNext := nFreeListHead;
      log.nActive := false;
      log.nPut := 0;
      log.nGet := 0;
      nFreeListHead := logIndex;
      for f := 0 to FRAMES
        invariant Is(Exit(p, i)) && nFramePut == old(nFramePut)
        invariant forall g, k :: 0 <= g < FRAMES && 0 <= k < MAX_THREADS ==>
                    nLogStart[g, k] == if k == i && g < f then 0 else old(nLogStart[g, k])
      {
        nLogStart[f, logIndex] := 0;
      }
    }

    // What the flip writes into the frame table for log `k`.
    ghost function StartOf(p: Pool, k: nat): nat {
      if k < |p.logs| then p.logs[k].put else 0
    }

    method FlipGets(ghost p: Pool)
      requires Is(p) && Linked(p)
      modifies Pool[..], nLogStart
      ensures Is(Flip(p))
      ensures forall f, k :: 0 <= f < FRAMES && 0 <= k < MAX_THREADS ==>
                nLogStart[f, k] == if f == nFramePut then StartOf(p, k) else old(nLogStart[f, k])
    {
      ghost var after := Flip(p).logs;
      var i := 0;
      while i < MAX_THREADS
        invariant 0 <= i <= MAX_THREADS && Shaped() && |p.logs| == nNumLogs && p.head == nFreeListHead
        invariant forall k :: 0 <= k < nNumLogs ==> Pool[k] in Pool[..]
        invariant forall k :: 0 <= k < nNumLogs && k < i ==> Pool[k].State() == after[k]
        invariant forall k :: i <= k < nNumLogs ==> Pool[k].State() == p.logs[k]
        invariant forall f, k :: 0 <= f < FRAMES && 0 <= k < MAX_THREADS ==>
                    nLogStart[f, k] == if f == nFramePut && k < i then StartOf(p, k) else old(nLogStart[f, k])
      {
        var log := Pool[i];
        if log == null {
          nLogStart[nFramePut, i] := 0;
        } else {
          assert log in Pool[..];
          nLogStart[nFramePut, i] := log.nPut;
          log.nGet := log.nPut;
        }
        i := i + 1;
      }
    }
  }
}
