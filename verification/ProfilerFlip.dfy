/**
 The replay loop of a flip on the arrays that it updates in place, proved against the replay on
 values.
 */
module ProfilerFlip {
  import opened ProfilerTicks
  import opened ProfilerRing
  import opened ProfilerReplay

  // The stack of a thread's log.  A push clears the child slot above it, so the last of the 32
  // slots is never a level of its own.
  class ThreadStack {
    const nStack: array<nat>
    const nChildTickStack: array<int>
    const nGroupStackPos: array<nat>
    var nStackPos: nat

    ghost predicate Valid()
      reads this, nGroupStackPos
    {
      && nStack.Length == STACK_MAX && nChildTickStack.Length == STACK_MAX && nGroupStackPos.Length == MAX_GROUPS
      && nStack != nGroupStackPos && nStackPos < STACK_MAX
      && forall g :: 0 <= g < MAX_GROUPS ==> nGroupStackPos[g] < 256
    }

    ghost function Stack(): seq<nat>
      requires Valid()
      reads this, nStack, nGroupStackPos
    {
      nStack[..nStackPos]
    }

    ghost function Child(): seq<int>
      requires Valid()
      reads this, nChildTickStack, nGroupStackPos
    {
      nChildTickStack[..nStackPos + 1]
    }

    constructor ()
      ensures Valid() && Stack() == [] && Child() == [0] && nGroupStackPos[..] == Zeros(MAX_GROUPS)
      ensures fresh(nStack) && fresh(nChildTickStack) && fresh(nGroupStackPos)
    {
      nStack := new nat[STACK_MAX](_ => 0);
      nChildTickStack := new int[STACK_MAX](_ => 0);
      nGroupStackPos := new nat[MAX_GROUPS](_ => 0);
      nStackPos := 0;
    }

    method Enter(k: nat, g: nat)
      requires Valid() && g < MAX_GROUPS && nStackPos < STACK_MAX - 1
      modifies this, nStack, nChildTickStack, nGroupStackPos
      ensures Valid() && Stack() == old(Stack()) + [k] && Child() == old(Child()) + [0]
      ensures nGroupStackPos[..] == old(nGroupStackPos[..])[g := (old(nGroupStackPos[g]) + 1) % 256]
    {
      nGroupStackPos[g] := (nGroupStackPos[g] + 1) % 256;
      nStack[nStackPos] := k;
      nStackPos := nStackPos + 1;
      nChildTickStack[nStackPos] := 0;
    }

    method Leave(ticks: int) returns (childTicks: int)
      requires Valid() && nStackPos > 0
      modifies this`nStackPos, nChildTickStack
      ensures Valid() && childTicks == old(Child()[nStackPos]) && nStackPos == old(nStackPos) - 1
      ensures Stack() == old(Stack())[..nStackPos]
      ensures Child() == old(Child())[..nStackPos] + [old(Child())[nStackPos] + ticks]
    {
      childTicks := nChildTickStack[nStackPos];
      nStackPos := nStackPos - 1;
      nChildTickStack[nStackPos] := nChildTickStack[nStackPos] + ticks;
    }

    // Whether this leave ends the outermost open timer of the group.
    method LeaveGroup(g: nat) returns (outermost: bool)
      requires Valid() && g < MAX_GROUPS
      modifies nGroupStackPos
      ensures Valid() && outermost == (old(nGroupStackPos[g]) == 1)
      ensures nGroupStackPos[..] == var p := old(nGroupStackPos[..]); if p[g] > 0 then p[g := p[g] - 1] else p
    {
      outermost := false;
      var groupStackPos := nGroupStackPos[g];
      if groupStackPos > 0 {
        groupStackPos := groupStackPos - 1;
        outermost := groupStackPos == 0;
        nGroupStackPos[g] := groupStackPos;
      }
    }

    method LeaveTimer(g: nat, ticks: int) returns (childTicks: int, outermost: bool)
      requires Valid() && nStackPos > 0 && g < MAX_GROUPS
      modifies this`nStackPos, nChildTickStack, nGroupStackPos
      ensures Valid() && childTicks == old(Child()[nStackPos]) && nStackPos == old(nStackPos) - 1
      ensures Stack() == old(Stack())[..nStackPos]
      ensures Child() == old(Child())[..nStackPos] + [old(Child())[nStackPos] + ticks]
      ensures outermost == (old(nGroupStackPos[g]) == 1)
      ensures nGroupStackPos[..] == var p := old(nGroupStackPos[..]); if p[g] > 0 then p[g := p[g] - 1] else p
    {
      childTicks := Leave(ticks);
      outermost := LeaveGroup(g);
    }
  }

  // The counters of one flip.
  class Counters {
    const ticks: array<int>
    const exclusive: array<int>
    const count: array<int>
    const groupTicks: array<int>

    ghost predicate Valid() {
      && ticks.Length == MAX_TIMERS && exclusive.Length == MAX_TIMERS && count.Length == MAX_TIMERS && groupTicks.Length == MAX_GROUPS
      && ticks != exclusive && exclusive != count && count != ticks && groupTicks != ticks && groupTicks != exclusive && groupTicks != count
    }

    constructor ()
      ensures Valid() && ticks[..] == exclusive[..] == count[..] == Zeros(MAX_TIMERS) && groupTicks[..] == Zeros(MAX_GROUPS)
      ensures fresh(ticks) && fresh(exclusive) && fresh(count) && fresh(groupTicks)
    {
      ticks := new int[MAX_TIMERS](_ => 0);
      exclusive := new int[MAX_TIMERS](_ => 0);
      count := new int[MAX_TIMERS](_ => 0);
      groupTicks := new int[MAX_GROUPS](_ => 0);
    }

    method Credit(timer: nat, t: int, childTicks: int)
      requires Valid() && timer < MAX_TIMERS
      modifies ticks, exclusive, count
      ensures ticks[..] == old(ticks[..])[timer := old(ticks[timer]) + t]
      ensures exclusive[..] == old(exclusive[..])[timer := old(exclusive[timer]) + (t - childTicks)]
      ensures count[..] == old(count[..])[timer := old(count[timer]) + 1]
    {
      ticks[timer] := ticks[timer] + t;
      exclusive[timer] := exclusive[timer] + (t - childTicks);
      count[timer] := count[timer] + 1;
    }

    method CreditLeave(timer: nat, g: nat, t: int, childTicks: int, outermost: bool)
      requires Valid() && timer < MAX_TIMERS && g < MAX_GROUPS
      modifies ticks, exclusive, count, groupTicks
      ensures ticks[..] == old(ticks[..])[timer := old(ticks[timer]) + t]
      ensures exclusive[..] == old(exclusive[..])[timer := old(exclusive[timer]) + (t - childTicks)]
      ensures count[..] == old(count[..])[timer := old(count[timer]) + 1]
      ensures groupTicks[..] == if outermost then old(groupTicks[..])[g := old(groupTicks[g]) + t] else old(groupTicks[..])
    {
      Credit(timer, t, childTicks);
      if outermost {
        CreditGroup(g, t);
      }
    }

    method CreditGroup(g: nat, t: int)
      requires Valid() && g < MAX_GROUPS
      modifies groupTicks
      ensures groupTicks[..] == old(groupTicks[..])[g := old(groupTicks[g]) + t]
    {
      groupTicks[g] := groupTicks[g] + t;
    }
  }

  ghost predicate Ready(ts: ThreadStack, c: Counters)
    reads ts, ts.nGroupStackPos
  {
    ts.Valid() && c.Valid() && ts.nChildTickStack !in {c.ticks, c.exclusive, c.count, c.groupTicks}
  }

  ghost function View(ts: ThreadStack, c: Counters): (s: Replay)
    requires Ready(ts, c)
    reads ts, ts.nStack, ts.nChildTickStack, ts.nGroupStackPos, c.ticks, c.exclusive, c.count, c.groupTicks
    ensures Formed(s)
  {
    Replay(ts.Stack(), ts.Child(), ts.nGroupStackPos[..], c.ticks[..], c.exclusive[..], c.count[..], c.groupTicks[..])
  }

  method ReplayLeave(ts: ThreadStack, c: Counters, timer: nat, g: nat, ticks: int)
    requires Ready(ts, c) && timer < MAX_TIMERS && g < MAX_GROUPS && ts.nStackPos > 0
    modifies ts, ts.nStack, ts.nChildTickStack, ts.nGroupStackPos, c.ticks, c.exclusive, c.count, c.groupTicks
    ensures Ready(ts, c) && View(ts, c) == Pop(old(View(ts, c)), timer, g, ticks)
  {
    var childTicks, outermost := ts.LeaveTimer(g, ticks);
    c.CreditLeave(timer, g, ticks, childTicks, outermost);
  }

  // The entry in slot `k`.
  method ReplayEntry(ts: ThreadStack, c: Counters, log: array<Entry>, groups: seq<nat>, k: nat)
    requires Ready(ts, c) && IsTable(groups) && k < log.Length && Known(log[k]) && InLog(ts.Stack(), log.Length)
    requires LogType(log[k]) == LOG_ENTER ==> ts.nStackPos < STACK_MAX - 1
    modifies ts, ts.nStack, ts.nChildTickStack, ts.nGroupStackPos, c.ticks, c.exclusive, c.count, c.groupTicks
    ensures Ready(ts, c) && View(ts, c) == Step(old(View(ts, c)), log[..], groups, k)
  {
    var e := log[k];
    var kind, timer := LogType(e), LogTimerIndex(e);
    var g := groups[timer];
    if kind == LOG_ENTER {
      ts.Enter(k, g);
    } else if kind == LOG_LEAVE && ts.nStackPos > 0 {
      var tickStart := log[ts.nStack[ts.nStackPos - 1]];
      assert tickStart == log[..][ts.Stack()[ts.nStackPos - 1]];
      ReplayLeave(ts, c, timer, g, LogTickDifference(tickStart, e));
    }
  }

  // The replay never goes deeper than the stack allows.
  ghost predicate Shallow(s: Replay, log: seq<Entry>, groups: seq<nat>, slots: seq<nat>)
    requires Formed(s) && IsTable(groups) && Readable(log, slots) && InLog(s.stack, |log|)
  {
    forall j :: 0 <= j <= |slots| ==> |ReplaySlots(s, log, groups, slots[..j]).stack| < STACK_MAX
  }

  lemma ShallowParts(s: Replay, log: seq<Entry>, groups: seq<nat>, a: seq<nat>, b: seq<nat>)
    requires Formed(s) && IsTable(groups) && Readable(log, a) && Readable(log, b) && InLog(s.stack, |log|)
    requires Readable(log, a + b) && Shallow(s, log, groups, a + b)
    ensures Shallow(s, log, groups, a) && Shallow(ReplaySlots(s, log, groups, a), log, groups, b)
  {
    forall j | 0 <= j <= |a|
      ensures |ReplaySlots(s, log, groups, a[..j]).stack| < STACK_MAX
    {
      assert (a + b)[..j] == a[..j];
    }
    forall j | 0 <= j <= |b|
      ensures |ReplaySlots(ReplaySlots(s, log, groups, a), log, groups, b[..j]).stack| < STACK_MAX
    {
      assert (a + b)[..|a| + j] == a + b[..j];
      ReplayAppend(s, log, groups, a, b[..j]);
    }
  }

  lemma RangeParts(start: nat, k: nat, end: nat)
    requires start <= k < end
    ensures Range(start, end)[k - start] == k && Range(start, k + 1)[..k - start] == Range(start, k)
    ensures Range(start, end)[..k - start] == Range(start, k) && Range(start, end)[..k + 1 - start] == Range(start, k + 1)
  {
  }

  lemma PrefixReadable(log: seq<Entry>, slots: seq<nat>, j: nat)
    requires Readable(log, slots) && j <= |slots|
    ensures Readable(log, slots[..j])
  {
  }

  lemma ShallowStep(s: Replay, log: seq<Entry>, groups: seq<nat>, slots: seq<nat>, j: nat)
    requires Formed(s) && IsTable(groups) && InLog(s.stack, |log|)
    requires Readable(log, slots) && Shallow(s, log, groups, slots) && j < |slots|
    ensures Readable(log, slots[..j]) && Readable(log, slots[..j + 1])
    ensures var s' := ReplaySlots(s, log, groups, slots[..j]);
            && ReplaySlots(s, log, groups, slots[..j + 1]) == Step(s', log, groups, slots[j])
            && (LogType(log[slots[j]]) == LOG_ENTER ==> |s'.stack| < STACK_MAX - 1)
  {
    PrefixReadable(log, slots, j);
    PrefixReadable(log, slots, j + 1);
    assert slots[..j + 1][..j] == slots[..j];
  }

  lemma NextSlot(s: Replay, log: seq<Entry>, groups: seq<nat>, start: nat, k: nat, end: nat)
    requires start <= k < end && Formed(s) && IsTable(groups) && InLog(s.stack, |log|)
    requires Readable(log, Range(start, end)) && Shallow(s, log, groups, Range(start, end))
    ensures k < |log| && Known(log[k]) && Readable(log, Range(start, k)) && Readable(log, Range(start, k + 1))
    ensures var s' := ReplaySlots(s, log, groups, Range(start, k));
            && ReplaySlots(s, log, groups, Range(start, k + 1)) == Step(s', log, groups, k)
            && (LogType(log[k]) == LOG_ENTER ==> |s'.stack| < STACK_MAX - 1)
  {
    RangeParts(start, k, end);
    ShallowStep(s, log, groups, Range(start, end), k - start);
  }

  method ReplayRange(ts: ThreadStack, c: Counters, log: array<Entry>, groups: seq<nat>, start: nat, end: nat)
    requires Ready(ts, c) && IsTable(groups) && InLog(ts.Stack(), log.Length) && start <= end
    requires Readable(log[..], Range(start, end)) && Shallow(View(ts, c), log[..], groups, Range(start, end))
    modifies ts, ts.nStack, ts.nChildTickStack, ts.nGroupStackPos, c.ticks, c.exclusive, c.count, c.groupTicks
    ensures Ready(ts, c) && View(ts, c) == ReplaySlots(old(View(ts, c)), log[..], groups, Range(start, end))
  {
    ghost var s, l := View(ts, c), log[..];
    var k := start;
    while k < end
      invariant start <= k <= end && Ready(ts, c) && log[..] == l && Readable(l, Range(start, k))
      invariant View(ts, c) == ReplaySlots(s, l, groups, Range(start, k))
    {
      NextSlot(s, l, groups, start, k, end);
      ReplayEntry(ts, c, log, groups, k);
      k := k + 1;
    }
  }

  // Both ranges of a window.
  method ReplayWindow(ts: ThreadStack, c: Counters, log: array<Entry>, groups: seq<nat>, start0: nat, end0: nat, start1: nat, end1: nat,
                      ghost slots: seq<nat>)
    requires Ready(ts, c) && IsTable(groups) && InLog(ts.Stack(), log.Length) && start0 <= end0 && start1 <= end1
    requires slots == Range(start0, end0) + Range(start1, end1)
    requires Readable(log[..], slots) && Shallow(View(ts, c), log[..], groups, slots)
    modifies ts, ts.nStack, ts.nChildTickStack, ts.nGroupStackPos, c.ticks, c.exclusive, c.count, c.groupTicks
    ensures Ready(ts, c) && View(ts, c) == ReplaySlots(old(View(ts, c)), log[..], groups, slots)
  {
    ghost var s, l, a, b := View(ts, c), log[..], Range(start0, end0), Range(start1, end1);
    PartsReadable(l, a, b);
    ShallowParts(s, l, groups, a, b);
    ReplayAppend(s, l, groups, a, b);
    ReplayRange(ts, c, log, groups, start0, end0);
    ReplayRange(ts, c, log, groups, start1, end1);
  }

  lemma PartsReadable(log: seq<Entry>, a: seq<nat>, b: seq<nat>)
    requires Readable(log, a + b)
    ensures Readable(log, a) && Readable(log, b)
  {
    assert forall i :: 0 <= i < |a| ==> a[i] == (a + b)[i];
    assert forall i :: 0 <= i < |b| ==> b[i] == (a + b)[|a| + i];
  }

  method Clear(a: array<int>)
    modifies a
    ensures a[..] == Zeros(a.Length)
  {
    for i := 0 to a.Length
      invariant forall j :: 0 <= j < i ==> a[j] == 0
    {
      a[i] := 0;
    }
  }

  method AddInto(total: array<int>, part: array<int>)
    requires total.Length == part.Length && total != part
    modifies total
    ensures total[..] == Plus(old(total[..]), part[..])
  {
    for i := 0 to total.Length
      invariant forall j :: 0 <= j < i ==> total[j] == old(total[j]) + part[j]
      invariant forall j :: i <= j < total.Length ==> total[j] == old(total[j])
    {
      total[i] := total[i] + part[i];
    }
  }

  ghost function TotalsOf(acc: Counters): (t: Totals)
    requires acc.Valid()
    reads acc.ticks, acc.exclusive, acc.count, acc.groupTicks
    ensures IsTotals(t)
  {
    Totals(acc.ticks[..], acc.exclusive[..], acc.count[..], acc.groupTicks[..])
  }

  ghost predicate Apart(acc: Counters, c: Counters, ts: ThreadStack) {
    && acc.Valid() && c.Valid()
    && {acc.ticks, acc.exclusive, acc.count, acc.groupTicks} !! {c.ticks, c.exclusive, c.count, c.groupTicks, ts.nChildTickStack}
  }

  method ClearCounters(ts: ThreadStack, c: Counters)
    requires Ready(ts, c)
    modifies c.ticks, c.exclusive, c.count, c.groupTicks
    ensures Ready(ts, c) && View(ts, c) == Cleared(old(View(ts, c)))
  {
    Clear(c.ticks);
    Clear(c.exclusive);
    Clear(c.count);
    Clear(c.groupTicks);
  }

  method ReplayFrame(ts: ThreadStack, c: Counters, log: array<Entry>, groups: seq<nat>, start0: nat, end0: nat, start1: nat, end1: nat,
                     ghost slots: seq<nat>)
    requires Ready(ts, c) && IsTable(groups) && InLog(ts.Stack(), log.Length) && start0 <= end0 && start1 <= end1
    requires slots == Range(start0, end0) + Range(start1, end1)
    requires Readable(log[..], slots) && Shallow(Cleared(View(ts, c)), log[..], groups, slots)
    modifies ts, ts.nStack, ts.nChildTickStack, ts.nGroupStackPos, c.ticks, c.exclusive, c.count, c.groupTicks
    ensures Ready(ts, c) && View(ts, c) == FlipReplay(old(View(ts, c)), log[..], groups, slots)
  {
    ClearCounters(ts, c);
    ReplayWindow(ts, c, log, groups, start0, end0, start1, end1, slots);
  }

  method Accumulate(acc: Counters, c: Counters, ts: ThreadStack)
    requires Ready(ts, c) && Apart(acc, c, ts)
    modifies acc.ticks, acc.exclusive, acc.count, acc.groupTicks
    ensures Ready(ts, c) && View(ts, c) == old(View(ts, c)) && TotalsOf(acc) == Added(old(TotalsOf(acc)), View(ts, c))
  {
    AddInto(acc.ticks, c.ticks);
    AddInto(acc.exclusive, c.exclusive);
    AddInto(acc.count, c.count);
    AddInto(acc.groupTicks, c.groupTicks);
  }

  // A flip for one thread: the frame moves on, the counters start at zero, the window is replayed
  // and the counters are accumulated.
  method FlipThread(log: ThreadLog, ts: ThreadStack, c: Counters, acc: Counters, groups: seq<nat>)
    requires log.Valid() && Ready(ts, c) && Apart(acc, c, ts) && IsTable(groups) && InLog(ts.Stack(), log.Log.Length)
    requires log.nLogStart != ts.nStack && log.nLogStart != ts.nGroupStackPos
    requires var r := Flip(log.View());
             Readable(r.log, Window(r)) && Shallow(Cleared(View(ts, c)), r.log, groups, Window(r))
    modifies log, log.nLogStart, ts, ts.nStack, ts.nChildTickStack, ts.nGroupStackPos
    modifies c.ticks, c.exclusive, c.count, c.groupTicks, acc.ticks, acc.exclusive, acc.count, acc.groupTicks
    ensures log.Valid() && log.View() == Flip(old(log.View()))
    ensures Ready(ts, c) && View(ts, c) == FlipReplay(old(View(ts, c)), log.View().log, groups, Window(log.View()))
    ensures Apart(acc, c, ts) && TotalsOf(acc) == Added(old(TotalsOf(acc)), View(ts, c))
  {
    var start0, end0, start1, end1 := log.FlipFrame();
    ReplayFrame(ts, c, log.Log, groups, start0, end0, start1, end1, Window(log.View()));
    Accumulate(acc, c, ts);
  }
}
