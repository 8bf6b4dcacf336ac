/**
 What the counters of one timer mean: its ticks are the lengths of its closed intervals, its count
 is their number, and its exclusive ticks are the time during which one of them is innermost.
 */
module ProfilerTimers {
  import opened ProfilerTicks
  import opened ProfilerRing
  import opened ProfilerReplay
  import opened ProfilerGroups

  /* ---------- Intervals ---------- */

  // Event `j` leaves timer `i`, which event `StartOf(evs, j)` entered.
  predicate Closes(evs: seq<Event>, i: nat, j: nat)
    requires j < |evs|
  {
    evs[j].Leave? && evs[j].timer == i
  }

  function StartOf(evs: seq<Event>, j: nat): nat
    requires j < |evs|
  {
    var open := Open(evs, j);
    if open == [] then 0 else open[|open| - 1]
  }

  // The ticks from the enter to event `j`, a leave.
  function Interval(evs: seq<Event>, j: nat): set<int>
    requires j < |evs|
  {
    if evs[j].Leave? && StartOf(evs, j) < |evs| && evs[StartOf(evs, j)].Enter? then Span(evs[StartOf(evs, j)].tick, evs[j].tick) else {}
  }

  // What a leave closes, in a well-nested log.
  lemma StartIs(evs: seq<Event>, j: nat)
    requires WellNested(evs) && j < |evs| && evs[j].Leave?
    ensures var s := StartOf(evs, j);
            && s < j && evs[s].Enter? && evs[s].timer == evs[j].timer && Open(evs, j) == Open(evs, j + 1) + [s]
            && evs[s].tick <= evs[j].tick < evs[s].tick + 0x8000_0000_0000
  {
    assert LeavesTop(evs, j);
  }

  // Of the intervals closed so far that hold the tick, this one lies inside all others.
  ghost predicate Innermost(evs: seq<Event>, m: nat, j: nat, t: int)
    requires m <= |evs|
  {
    && j < m && t in Interval(evs, j)
    && forall k :: 0 <= k < m && t in Interval(evs, k) ==> j <= k && StartOf(evs, k) <= StartOf(evs, j)
  }

  /* ---------- The counters of a timer ---------- */

  // The lengths of the closed intervals of timer `i`, added up.
  function TimeOf(evs: seq<Event>, i: nat, m: nat): nat
    requires m <= |evs|
  {
    if m == 0 then 0 else TimeOf(evs, i, m - 1) + if Closes(evs, i, m - 1) then |Interval(evs, m - 1)| else 0
  }

  // Their number.
  function TimesClosed(evs: seq<Event>, i: nat, m: nat): nat
    requires m <= |evs|
  {
    if m == 0 then 0 else TimesClosed(evs, i, m - 1) + if Closes(evs, i, m - 1) then 1 else 0
  }

  // All intervals; empty where nothing is closed.
  function Intervals(evs: seq<Event>): (r: seq<set<int>>)
    ensures |r| == |evs|
  {
    seq(|evs|, j requires 0 <= j < |evs| => Interval(evs, j))
  }

  function Mine(evs: seq<Event>, i: nat): (r: seq<bool>)
    ensures |r| == |evs|
  {
    seq(|evs|, j requires 0 <= j < |evs| => Closes(evs, i, j))
  }

  function UnionTo(sets: seq<set<int>>, m: nat): set<int>
    requires m <= |sets|
  {
    if m == 0 then {} else UnionTo(sets, m - 1) + sets[m - 1]
  }

  // What the sets that are mine have and no set before them.
  function FirstTo(sets: seq<set<int>>, mine: seq<bool>, m: nat): set<int>
    requires m <= |sets| == |mine|
  {
    if m == 0 then {} else FirstTo(sets, mine, m - 1) + if mine[m - 1] then sets[m - 1] - UnionTo(sets, m - 1) else {}
  }

  lemma {:induction false} InUnion(sets: seq<set<int>>, m: nat, t: int)
    requires m <= |sets|
    ensures t in UnionTo(sets, m) <==> exists j :: 0 <= j < m && t in sets[j]
  {
    if m > 0 {
      InUnion(sets, m - 1, t);
    }
  }

  lemma {:induction false} InFirst(sets: seq<set<int>>, mine: seq<bool>, m: nat, t: int)
    requires m <= |sets| == |mine|
    ensures t in FirstTo(sets, mine, m) <==> exists j :: 0 <= j < m && mine[j] && t in sets[j] && t !in UnionTo(sets, j)
  {
    if m > 0 {
      InFirst(sets, mine, m - 1, t);
    }
  }

  lemma {:induction false} FirstInUnion(sets: seq<set<int>>, mine: seq<bool>, m: nat)
    requires m <= |sets| == |mine|
    ensures FirstTo(sets, mine, m) <= UnionTo(sets, m)
  {
    if m > 0 {
      FirstInUnion(sets, mine, m - 1);
    }
  }

  // The ticks in some closed interval.
  function AllTime(evs: seq<Event>, m: nat): set<int>
    requires m <= |evs|
  {
    UnionTo(Intervals(evs), m)
  }

  // The ticks of the closed intervals of timer `i` that are in none closed before.
  function OwnTime(evs: seq<Event>, i: nat, m: nat): set<int>
    requires m <= |evs|
  {
    FirstTo(Intervals(evs), Mine(evs, i), m)
  }

  // What is open at event `k` and was entered before event `j` was open behind event `j`.
  lemma {:induction false} OpenBetween(evs: seq<Event>, j: nat, k: nat, s: nat)
    requires j < k <= |evs| && s <= j && s in Open(evs, k)
    ensures s in Open(evs, j + 1)
    decreases k
  {
    if j + 1 < k {
      assert s in Open(evs, k - 1);
      OpenBetween(evs, j, k - 1, s);
    }
  }

  lemma OrderedTicks(evs: seq<Event>, j: nat, s: nat)
    requires Ordered(evs) && j < s < |evs| && Timed(evs[j]) && Timed(evs[s])
    ensures evs[j].tick <= evs[s].tick
  {
  }

  // An interval closed later that holds the tick lies around the one closed before.
  lemma LaterIsAround(evs: seq<Event>, j: nat, k: nat, t: int)
    requires WellNested(evs) && j < k < |evs| && t in Interval(evs, j) && t in Interval(evs, k)
    ensures StartOf(evs, k) < StartOf(evs, j)
  {
    var s := StartOf(evs, k);
    StartIs(evs, j);
    StartIs(evs, k);
    if s > j {
      OrderedTicks(evs, j, s);
    } else {
      assert s in Open(evs, k);
      OpenBetween(evs, j, k, s);
      OpenAscending(evs, j);
      var inner := Open(evs, j + 1);
      var i :| 0 <= i < |inner| && inner[i] == s;
      assert Open(evs, j)[i] == s;
    }
  }

  lemma InClosed(evs: seq<Event>, j: nat, t: int)
    requires j <= |evs|
    ensures t in AllTime(evs, j) <==> exists k :: 0 <= k < j && t in Interval(evs, k)
  {
    var sets := Intervals(evs);
    InUnion(sets, j, t);
    if t in AllTime(evs, j) {
      var k :| 0 <= k < j && t in sets[k];
      assert t in Interval(evs, k);
    }
    if k :| 0 <= k < j && t in Interval(evs, k) {
      assert t in sets[k];
    }
  }

  lemma FirstIsInnermost(evs: seq<Event>, m: nat, j: nat, t: int)
    requires WellNested(evs) && j < m <= |evs| && t in Interval(evs, j)
    ensures t !in AllTime(evs, j) <==> Innermost(evs, m, j, t)
  {
    InClosed(evs, j, t);
    if t !in AllTime(evs, j) {
      forall k | 0 <= k < m && t in Interval(evs, k)
        ensures j <= k && StartOf(evs, k) <= StartOf(evs, j)
      {
        if j < k {
          LaterIsAround(evs, j, k, t);
        }
      }
    }
  }

  // A timer's own time is the time during which one of its closed intervals is innermost.
  lemma OwnTimeIs(evs: seq<Event>, i: nat, m: nat, t: int)
    requires WellNested(evs) && m <= |evs|
    ensures t in OwnTime(evs, i, m) <==> exists j :: 0 <= j < m && Closes(evs, i, j) && Innermost(evs, m, j, t)
  {
    var sets, mine := Intervals(evs), Mine(evs, i);
    InFirst(sets, mine, m, t);
    if t in OwnTime(evs, i, m) {
      var j :| 0 <= j < m && mine[j] && t in sets[j] && t !in UnionTo(sets, j);
      FirstIsInnermost(evs, m, j, t);
      assert Closes(evs, i, j);
    }
    if j :| 0 <= j < m && Closes(evs, i, j) && Innermost(evs, m, j, t) {
      FirstIsInnermost(evs, m, j, t);
      assert mine[j] && t in sets[j];
    }
  }

  /* ---------- Child slots ---------- */

  // The closed time between entry `k - 1` of the stack and the next one.
  function SlotTime(c: set<int>, starts: seq<int>, k: nat): set<int>
    requires k <= |starts|
  {
    set t | t in c && (k > 0 ==> starts[k - 1] <= t) && (k < |starts| ==> t < starts[k])
  }

  ghost predicate Rising(starts: seq<int>) {
    forall i, j :: 0 <= i < j < |starts| ==> starts[i] <= starts[j]
  }

  lemma PushSlots(c: set<int>, starts: seq<int>, a: int)
    requires forall t :: t in c ==> t < a
    ensures forall k :: 0 <= k <= |starts| ==> SlotTime(c, starts + [a], k) == SlotTime(c, starts, k)
    ensures SlotTime(c, starts + [a], |starts| + 1) == {}
  {
    forall k | 0 <= k <= |starts|
      ensures SlotTime(c, starts + [a], k) == SlotTime(c, starts, k)
    {
    }
  }

  lemma SizeOfUnion(a: set<int>, b: set<int>)
    requires a !! b
    ensures |a + b| == |a| + |b|
  {
  }

  lemma LowerSlots(c: set<int>, starts: seq<int>, a: int, b: int, k: nat)
    requires Rising(starts + [a]) && k < |starts|
    ensures SlotTime(c + Span(a, b), starts, k) == SlotTime(c, starts + [a], k)
  {
    var all := starts + [a];
    assert all[k] <= all[|starts|];
  }

  lemma ParentSlot(c: set<int>, starts: seq<int>, a: int, b: int)
    requires Rising(starts + [a]) && a <= b && forall t :: t in c ==> t < b
    ensures var n := |starts|; |SlotTime(c + Span(a, b), starts, n)| == |SlotTime(c, starts + [a], n)| + (b - a)
  {
    var n, all := |starts|, starts + [a];
    assert n > 0 ==> all[n - 1] <= all[n];
    assert SlotTime(c + Span(a, b), starts, n) == SlotTime(c, all, n) + Span(a, b);
    SizeOfUnion(SlotTime(c, all, n), Span(a, b));
  }

  // What is left of the interval without the time closed inside it.
  lemma OwnSlot(c: set<int>, starts: seq<int>, a: int, b: int)
    requires a <= b && forall t :: t in c ==> t < b
    ensures |Span(a, b) - c| == (b - a) - |SlotTime(c, starts + [a], |starts| + 1)|
  {
    var inside := SlotTime(c, starts + [a], |starts| + 1);
    assert Span(a, b) == (Span(a, b) - c) + inside;
    SizeOfUnion(Span(a, b) - c, inside);
  }

  // The child slots hold the closed time between the open timers.
  ghost predicate SlotsHold(child: seq<int>, c: set<int>, starts: seq<int>) {
    |child| == |starts| + 1 && forall k :: 0 <= k <= |starts| ==> child[k] == |SlotTime(c, starts, k)|
  }

  lemma PushChild(child: seq<int>, c: set<int>, starts: seq<int>, a: int)
    requires SlotsHold(child, c, starts) && forall t :: t in c ==> t < a
    ensures SlotsHold(child + [0], c, starts + [a])
  {
    PushSlots(c, starts, a);
  }

  lemma PopChild(child: seq<int>, c: set<int>, starts: seq<int>, a: int, b: int)
    requires SlotsHold(child, c, starts + [a]) && Rising(starts + [a]) && a <= b && forall t :: t in c ==> t < b
    ensures var n := |starts|; SlotsHold(child[..n] + [child[n] + (b - a)], c + Span(a, b), starts)
    ensures (b - a) - child[|starts| + 1] == |Span(a, b) - c|
  {
    forall k | 0 <= k < |starts|
      ensures SlotTime(c + Span(a, b), starts, k) == SlotTime(c, starts + [a], k)
    {
      LowerSlots(c, starts, a, b, k);
    }
    ParentSlot(c, starts, a, b);
    OwnSlot(c, starts, a, b);
  }

  /* ---------- The replay ---------- */

  function TickAt(e: Event): int {
    if Timed(e) then e.tick else 0
  }

  // When the open timers were entered.
  function Starts(evs: seq<Event>, open: seq<nat>): (r: seq<int>)
    requires forall k :: 0 <= k < |open| ==> open[k] < |evs|
    ensures |r| == |open|
  {
    seq(|open|, k requires 0 <= k < |open| => TickAt(evs[open[k]]))
  }

  lemma StartsRise(evs: seq<Event>, m: nat)
    requires WellNested(evs) && m <= |evs|
    ensures Ascending(Open(evs, m), evs, m) && Rising(Starts(evs, Open(evs, m)))
  {
    OpenAscending(evs, m);
  }

  lemma AllBefore(evs: seq<Event>, m: nat, j: nat)
    requires WellNested(evs) && m <= j < |evs| && Timed(evs[j])
    ensures forall t :: t in AllTime(evs, m) ==> t < evs[j].tick
  {
    forall t | t in AllTime(evs, m)
      ensures t < evs[j].tick
    {
      InUnion(Intervals(evs), m, t);
      var k :| 0 <= k < m && t in Intervals(evs)[k];
      assert t in Interval(evs, k);
      OrderedTicks(evs, k, j);
    }
  }

  ghost predicate Slotted(s: Replay, evs: seq<Event>, m: nat)
    requires m <= |evs| && Ascending(Open(evs, m), evs, m)
  {
    s.stack == Open(evs, m) && SlotsHold(s.child, AllTime(evs, m), Starts(evs, Open(evs, m)))
  }

  lemma EnterSlots(s: Replay, evs: seq<Event>, m: nat, g: nat)
    requires WellNested(evs) && m < |evs| && evs[m].Enter? && Formed(s) && g < MAX_GROUPS
    requires Ascending(Open(evs, m), evs, m) && Slotted(s, evs, m)
    ensures Ascending(Open(evs, m + 1), evs, m + 1) && Slotted(Push(s, m, g), evs, m + 1)
  {
    EnterFacts(evs, m);
    AllBefore(evs, m, m);
    PushChild(s.child, AllTime(evs, m), Starts(evs, Open(evs, m)), evs[m].tick);
  }

  lemma StartsPush(evs: seq<Event>, open: seq<nat>, m: nat)
    requires m < |evs| && forall k :: 0 <= k < |open| ==> open[k] < |evs|
    ensures Starts(evs, open + [m]) == Starts(evs, open) + [TickAt(evs[m])]
  {
  }

  lemma NothingClosed(evs: seq<Event>, m: nat)
    requires m < |evs| && !evs[m].Leave?
    ensures AllTime(evs, m + 1) == AllTime(evs, m)
  {
    assert Intervals(evs)[m] == {};
  }

  lemma EnterFacts(evs: seq<Event>, m: nat)
    requires m < |evs| && evs[m].Enter? && Ascending(Open(evs, m), evs, m)
    ensures Ascending(Open(evs, m + 1), evs, m + 1) && Open(evs, m + 1) == Open(evs, m) + [m]
    ensures Starts(evs, Open(evs, m + 1)) == Starts(evs, Open(evs, m)) + [evs[m].tick] && AllTime(evs, m + 1) == AllTime(evs, m)
  {
    OpenAscending(evs, m + 1);
    StartsPush(evs, Open(evs, m), m);
    NothingClosed(evs, m);
  }

  lemma NoteSlots(s: Replay, evs: seq<Event>, m: nat)
    requires m < |evs| && evs[m].Note? && Ascending(Open(evs, m), evs, m) && Slotted(s, evs, m)
    ensures Ascending(Open(evs, m + 1), evs, m + 1) && Slotted(s, evs, m + 1)
  {
    OpenAscending(evs, m + 1);
    NothingClosed(evs, m);
  }

  // What a leave does to the stack and to the closed time.
  lemma LeaveStack(evs: seq<Event>, m: nat)
    requires WellNested(evs) && m < |evs| && evs[m].Leave?
    ensures Ascending(Open(evs, m), evs, m) && Ascending(Open(evs, m + 1), evs, m + 1)
    ensures Open(evs, m) == Open(evs, m + 1) + [StartOf(evs, m)] && StartOf(evs, m) < m
  {
    StartIs(evs, m);
    OpenAscending(evs, m);
    OpenAscending(evs, m + 1);
  }

  lemma LeaveStarts(evs: seq<Event>, m: nat, a: int)
    requires WellNested(evs) && m < |evs| && evs[m].Leave? && StartOf(evs, m) < |evs| && a == TickAt(evs[StartOf(evs, m)])
    requires Ascending(Open(evs, m), evs, m) && Ascending(Open(evs, m + 1), evs, m + 1)
    ensures Starts(evs, Open(evs, m)) == Starts(evs, Open(evs, m + 1)) + [a] && Rising(Starts(evs, Open(evs, m + 1)) + [a])
  {
    LeaveStack(evs, m);
    StartsRise(evs, m);
  }

  lemma LeaveTime(evs: seq<Event>, m: nat, a: int)
    requires WellNested(evs) && m < |evs| && evs[m].Leave? && StartOf(evs, m) < |evs| && a == TickAt(evs[StartOf(evs, m)])
    ensures a <= evs[m].tick && Interval(evs, m) == Span(a, evs[m].tick) && AllTime(evs, m + 1) == AllTime(evs, m) + Span(a, evs[m].tick)
  {
    StartIs(evs, m);
  }

  lemma LeaveSlots(s: Replay, evs: seq<Event>, m: nat, timer: nat, g: nat, a: int, d: int)
    requires WellNested(evs) && m < |evs| && evs[m].Leave? && Formed(s) && g < MAX_GROUPS && timer < MAX_TIMERS && s.stack != []
    requires Ascending(Open(evs, m), evs, m) && Slotted(s, evs, m)
    requires StartOf(evs, m) < |evs| && a == TickAt(evs[StartOf(evs, m)]) && d == evs[m].tick - a
    ensures Ascending(Open(evs, m + 1), evs, m + 1) && Slotted(Pop(s, timer, g, d), evs, m + 1)
    ensures d - s.child[|s.stack|] == |Interval(evs, m) - AllTime(evs, m)| && d == |Interval(evs, m)|
  {
    LeaveStack(evs, m);
    LeaveStarts(evs, m, a);
    LeaveTime(evs, m, a);
    AllBefore(evs, m, m);
    PopChild(s.child, AllTime(evs, m), Starts(evs, Open(evs, m + 1)), a, evs[m].tick);
  }

  // What the replay knows of timer `i`.
  ghost predicate TimerHolds(s: Replay, evs: seq<Event>, i: nat, m: nat)
    requires m <= |evs| && i < MAX_TIMERS && Formed(s)
  {
    s.ticks[i] == TimeOf(evs, i, m) && s.count[i] == TimesClosed(evs, i, m) && s.exclusive[i] == |OwnTime(evs, i, m)|
  }

  lemma OwnGrows(evs: seq<Event>, i: nat, m: nat)
    requires m < |evs|
    ensures |OwnTime(evs, i, m + 1)| == |OwnTime(evs, i, m)| + if Closes(evs, i, m) then |Interval(evs, m) - AllTime(evs, m)| else 0
  {
    FirstInUnion(Intervals(evs), Mine(evs, i), m);
    SizeOfUnion(OwnTime(evs, i, m), Interval(evs, m) - AllTime(evs, m));
  }

  lemma PopTimed(s: Replay, evs: seq<Event>, i: nat, m: nat, timer: nat, g: nat, d: int)
    requires m < |evs| && evs[m].Leave? && evs[m].timer == timer && Formed(s) && s.stack != []
    requires g < MAX_GROUPS && timer < MAX_TIMERS && i < MAX_TIMERS && TimerHolds(s, evs, i, m)
    requires d == |Interval(evs, m)| && d - s.child[|s.stack|] == |Interval(evs, m) - AllTime(evs, m)|
    ensures TimerHolds(Pop(s, timer, g, d), evs, i, m + 1)
  {
    OwnGrows(evs, i, m);
  }

  lemma OtherTimed(s: Replay, s': Replay, evs: seq<Event>, i: nat, m: nat)
    requires m < |evs| && !evs[m].Leave? && Formed(s) && Formed(s') && i < MAX_TIMERS && TimerHolds(s, evs, i, m)
    requires s'.ticks == s.ticks && s'.count == s.count && s'.exclusive == s.exclusive
    ensures TimerHolds(s', evs, i, m + 1)
  {
    OwnGrows(evs, i, m);
  }

  ghost predicate Told(s: Replay, evs: seq<Event>, i: nat, m: nat)
    requires m <= |evs| && i < MAX_TIMERS && Formed(s)
  {
    Ascending(Open(evs, m), evs, m) && Slotted(s, evs, m) && TimerHolds(s, evs, i, m)
  }

  lemma LeaveTold(s: Replay, log: seq<Entry>, evs: seq<Event>, groups: seq<nat>, i: nat, m: nat)
    requires Logged(log, evs) && WellNested(evs) && IsTable(groups) && i < MAX_TIMERS && m < |evs| && evs[m].Leave? && Known(log[m])
    requires LogType(log[m]) == LOG_LEAVE && LogTimerIndex(log[m]) == evs[m].timer
    requires Formed(s) && InLog(s.stack, |log|) && Told(s, evs, i, m)
    ensures Told(Step(s, log, groups, m), evs, i, m + 1)
  {
    var timer, top := evs[m].timer, StartOf(evs, m);
    StartIs(evs, m);
    TicksBetween(log, evs, top, m);
    LeaveSlots(s, evs, m, timer, groups[timer], evs[top].tick, evs[m].tick - evs[top].tick);
    PopTimed(s, evs, i, m, timer, groups[timer], evs[m].tick - evs[top].tick);
  }

  lemma StepTold(s: Replay, log: seq<Entry>, evs: seq<Event>, groups: seq<nat>, i: nat, m: nat)
    requires Logged(log, evs) && WellNested(evs) && IsTable(groups) && i < MAX_TIMERS && m < |evs|
    requires Formed(s) && InLog(s.stack, |log|) && Told(s, evs, i, m)
    ensures Known(log[m]) && Told(Step(s, log, groups, m), evs, i, m + 1)
  {
    LoggedKnown(log, evs, m);
    var s' := Step(s, log, groups, m);
    match evs[m]
    case Enter(timer, _) =>
      EnterSlots(s, evs, m, groups[timer]);
      OtherTimed(s, s', evs, i, m);
    case Leave(timer, _) =>
      LeaveTold(s, log, evs, groups, i, m);
    case Note(_, _, _) =>
      NoteSlots(s, evs, m);
      OtherTimed(s, s', evs, i, m);
  }

  lemma StartTold(evs: seq<Event>, i: nat)
    requires i < MAX_TIMERS
    ensures Told(Empty, evs, i, 0)
  {
    assert SlotTime({}, [], 0) == {};
    assert Starts(evs, []) == [];
  }

  lemma {:induction false} IdealTold(log: seq<Entry>, evs: seq<Event>, groups: seq<nat>, i: nat, m: nat)
    requires Logged(log, evs) && WellNested(evs) && IsTable(groups) && i < MAX_TIMERS && m <= |evs| && KnownLog(log)
    ensures Told(Ideal(log, groups, m), evs, i, m)
  {
    if m == 0 {
      IdealStart(log, groups);
      StartTold(evs, i);
    } else {
      IdealTold(log, evs, groups, i, m - 1);
      IdealStep(log, groups, m - 1);
      StepTold(Ideal(log, groups, m - 1), log, evs, groups, i, m - 1);
    }
  }

  // For a well-nested log, a timer's ticks are the lengths of its closed intervals, its count is their number,
  // and its exclusive ticks are the time during which one of them is innermost.
  lemma TimerIsTrueTime(log: seq<Entry>, evs: seq<Event>, groups: seq<nat>, i: nat)
    requires Logged(log, evs) && WellNested(evs) && IsTable(groups) && i < MAX_TIMERS
    ensures KnownLog(log)
    ensures var s := Ideal(log, groups, |log|);
            && s.ticks[i] == TimeOf(evs, i, |evs|) && s.count[i] == TimesClosed(evs, i, |evs|)
            && s.exclusive[i] == |OwnTime(evs, i, |evs|)|
  {
    forall k | 0 <= k < |log|
      ensures Known(log[k])
    {
      LoggedKnown(log, evs, k);
    }
    IdealTold(log, evs, groups, i, |evs|);
  }
}
