/**
 What the group ticks of a replay mean: the time that the closed timers of the group cover, each
 tick counted once however the timers are nested.
 */
module ProfilerGroups {
  import opened ProfilerTicks
  import opened ProfilerRing
  import opened ProfilerReplay

  // What a thread did, with the true value of the tick counter.
  datatype Event =
    | Enter(timer: nat, tick: int)
    | Leave(timer: nat, tick: int)
    | Note(kind: nat, token: nat, value: int)

  predicate Timed(e: Event) {
    e.Enter? || e.Leave?
  }

  predicate IsEvent(e: Event) {
    match e
    case Note(kind, token, _) => LOG_META <= kind <= LOG_GPU_EXTRA && token < MAX_TIMERS
    case Enter(timer, _) => timer < MAX_TIMERS
    case Leave(timer, _) => timer < MAX_TIMERS
  }

  function Pack(e: Event): Entry
    requires IsEvent(e)
  {
    match e
    case Enter(timer, tick) => MakeLogIndex(LOG_ENTER, timer, tick)
    case Leave(timer, tick) => MakeLogIndex(LOG_LEAVE, timer, tick)
    case Note(kind, token, value) => MakeLogIndex(kind, token, value)
  }

  // The log holds these events.
  ghost predicate Logged(log: seq<Entry>, evs: seq<Event>) {
    |log| == |evs| && forall i :: 0 <= i < |evs| ==> IsEvent(evs[i]) && log[i] == Pack(evs[i])
  }

  /* ---------- Nesting ---------- */

  // The enters among the first m events that have not been left, outermost first.
  function Open(evs: seq<Event>, m: nat): (s: seq<nat>)
    requires m <= |evs|
  {
    if m == 0 then [] else
    var s := Open(evs, m - 1);
    match evs[m - 1]
    case Enter(_, _) => s + [m - 1]
    case Leave(_, _) => if s == [] then s else s[..|s| - 1]
    case Note(_, _, _) => s
  }

  // The open enters come in the order of the log.
  ghost predicate Ascending(s: seq<nat>, evs: seq<Event>, m: nat) {
    && m <= |evs| && (forall i :: 0 <= i < |s| ==> s[i] < m && evs[s[i]].Enter?)
    && forall i, j :: 0 <= i < j < |s| ==> s[i] < s[j]
  }

  lemma {:induction false} OpenAscending(evs: seq<Event>, m: nat)
    requires m <= |evs|
    ensures Ascending(Open(evs, m), evs, m)
  {
    if m > 0 {
      OpenAscending(evs, m - 1);
    }
  }

  // Event j leaves the timer entered last, less than half the counter's period before.
  ghost predicate LeavesTop(evs: seq<Event>, j: nat)
    requires j < |evs|
  {
    evs[j].Leave? ==>
      var s := Open(evs, j);
      s != [] && s[|s| - 1] < j && evs[s[|s| - 1]].Enter? && evs[s[|s| - 1]].timer == evs[j].timer
      && evs[j].tick - evs[s[|s| - 1]].tick < 0x8000_0000_0000
  }

  ghost predicate FitsStack(evs: seq<Event>, m: nat)
    requires m <= |evs|
  {
    |Open(evs, m)| < STACK_MAX
  }

  // Every leave closes the innermost timer, the depth fits the stack, and the ticks do not decrease.
  ghost predicate WellNested(evs: seq<Event>) {
    && (forall j :: 0 <= j < |evs| ==> LeavesTop(evs, j))
    && (forall m :: 0 <= m <= |evs| ==> FitsStack(evs, m))
    && Ordered(evs)
  }

  ghost predicate Ordered(evs: seq<Event>) {
    forall i, j :: 0 <= i < j < |evs| && Timed(evs[i]) && Timed(evs[j]) ==> evs[i].tick <= evs[j].tick
  }

  /* ---------- Time ---------- */

  function Span(a: int, b: int): (r: set<int>)
    ensures forall t :: t in r <==> a <= t < b
    ensures |r| == if a < b then b - a else 0
    decreases b - a
  {
    if a < b then Span(a, b - 1) + {b - 1} else {}
  }

  function GroupOf(evs: seq<Event>, groups: seq<nat>, i: nat): nat
    requires i < |evs|
  {
    if Timed(evs[i]) && evs[i].timer < |groups| then groups[evs[i].timer] else 0
  }

  // The ticks inside some closed timer of group g among the first m events.
  ghost function Covered(evs: seq<Event>, groups: seq<nat>, g: nat, m: nat): set<int>
    requires m <= |evs|
  {
    if m == 0 then {} else
    Covered(evs, groups, g, m - 1) + ClosedBy(evs, groups, g, m - 1)
  }

  // The interval that event j closes, if it is one of group g.
  ghost function ClosedBy(evs: seq<Event>, groups: seq<nat>, g: nat, j: nat): set<int>
    requires j < |evs|
  {
    if evs[j].Leave? && GroupOf(evs, groups, j) == g && LeavesTop(evs, j)
    then Span(evs[Open(evs, j)[|Open(evs, j)| - 1]].tick, evs[j].tick)
    else {}
  }

  datatype Since = Never | At(tick: int)

  // When the outermost open timer of group g was entered.
  ghost function Outermost(evs: seq<Event>, groups: seq<nat>, g: nat, s: seq<nat>): Since
    requires forall i :: 0 <= i < |s| ==> s[i] < |evs| && evs[s[i]].Enter?
  {
    if s == [] then Never else
    var before, top := Outermost(evs, groups, g, s[..|s| - 1]), s[|s| - 1];
    if before.At? then before else if GroupOf(evs, groups, top) == g then At(evs[top].tick) else Never
  }

  ghost function Count(evs: seq<Event>, groups: seq<nat>, g: nat, s: seq<nat>): (c: nat)
    requires forall i :: 0 <= i < |s| ==> s[i] < |evs|
    ensures c <= |s|
  {
    if s == [] then 0 else
    Count(evs, groups, g, s[..|s| - 1]) + if GroupOf(evs, groups, s[|s| - 1]) == g then 1 else 0
  }

  // The covered time before the group's outermost open timer, which is not credited before it closes.
  ghost function Before(c: set<int>, since: Since): set<int> {
    if since.Never? then c else set t | t in c && t < since.tick
  }

  lemma {:induction false} CountZero(evs: seq<Event>, groups: seq<nat>, g: nat, s: seq<nat>)
    requires forall i :: 0 <= i < |s| ==> s[i] < |evs| && evs[s[i]].Enter?
    ensures Count(evs, groups, g, s) == 0 <==> Outermost(evs, groups, g, s) == Never
  {
    if s != [] {
      CountZero(evs, groups, g, s[..|s| - 1]);
    }
  }

  // The outermost open timer was not entered later than any later event.
  lemma {:induction false} OutermostBefore(evs: seq<Event>, groups: seq<nat>, g: nat, s: seq<nat>, j: nat)
    requires Ordered(evs) && Ascending(s, evs, j) && j < |evs| && Timed(evs[j])
    ensures Outermost(evs, groups, g, s).At? ==> Outermost(evs, groups, g, s).tick <= evs[j].tick
  {
    if s != [] {
      OutermostBefore(evs, groups, g, s[..|s| - 1], j);
    }
  }

  // Covered time lies before every later event.
  lemma {:induction false} CoveredBefore(evs: seq<Event>, groups: seq<nat>, g: nat, m: nat, j: nat, t: int)
    requires Ordered(evs) && m <= j < |evs| && Timed(evs[j]) && t in Covered(evs, groups, g, m)
    ensures t < evs[j].tick
  {
    if t in Covered(evs, groups, g, m - 1) {
      CoveredBefore(evs, groups, g, m - 1, j, t);
    } else {
      ClosedBefore(evs, groups, g, m - 1, j, t);
    }
  }

  lemma ClosedBefore(evs: seq<Event>, groups: seq<nat>, g: nat, i: nat, j: nat, t: int)
    requires Ordered(evs) && i < j < |evs| && Timed(evs[j]) && t in ClosedBy(evs, groups, g, i)
    ensures t < evs[j].tick
  {
    assert t < evs[i].tick;
  }

  // Adding an interval to time of which only the part before it counts.
  lemma AddSpan(c: set<int>, a: int, b: int)
    requires a <= b && forall t :: t in c ==> t < b
    ensures |c + Span(a, b)| == |Before(c, At(a))| + (b - a)
  {
    assert c + Span(a, b) == Before(c, At(a)) + Span(a, b);
    assert Before(c, At(a)) !! Span(a, b);
  }

  /* ---------- The replay of a log of events ---------- */

  ghost predicate KnownLog(log: seq<Entry>) {
    forall i :: 0 <= i < |log| ==> Known(log[i])
  }

  lemma RangeReadable(log: seq<Entry>, p: nat, q: nat)
    requires KnownLog(log) && p <= q <= |log|
    ensures Readable(log, Range(p, q))
  {
  }

  // The replay of the first m entries of a log that never wraps.
  ghost function Ideal(log: seq<Entry>, groups: seq<nat>, m: nat): (s: Replay)
    requires IsTable(groups) && m <= |log| && KnownLog(log)
    ensures Formed(s) && InLog(s.stack, |log|)
  {
    RangeReadable(log, 0, m);
    ReplaySlots(Empty, log, groups, Range(0, m))
  }

  lemma ReplayLast(s: Replay, log: seq<Entry>, groups: seq<nat>, init: seq<nat>, k: nat)
    requires Formed(s) && IsTable(groups) && Readable(log, init + [k]) && InLog(s.stack, |log|)
    ensures Readable(log, init) && k < |log| && Known(log[k])
    ensures ReplaySlots(s, log, groups, init + [k]) == Step(ReplaySlots(s, log, groups, init), log, groups, k)
  {
    assert (init + [k])[..|init|] == init && (init + [k])[|init|] == k;
    assert forall i :: 0 <= i < |init| ==> init[i] == (init + [k])[i];
  }

  lemma ReplayNext(s: Replay, log: seq<Entry>, groups: seq<nat>, p: nat, q: nat)
    requires Formed(s) && IsTable(groups) && KnownLog(log) && InLog(s.stack, |log|) && p <= q < |log|
    ensures Readable(log, Range(p, q)) && Readable(log, Range(p, q + 1))
    ensures ReplaySlots(s, log, groups, Range(p, q + 1)) == Step(ReplaySlots(s, log, groups, Range(p, q)), log, groups, q)
  {
    RangeReadable(log, p, q);
    RangeReadable(log, p, q + 1);
    assert Range(p, q + 1) == Range(p, q) + [q];
    ReplayLast(s, log, groups, Range(p, q), q);
  }

  lemma IdealStep(log: seq<Entry>, groups: seq<nat>, m: nat)
    requires IsTable(groups) && m < |log| && KnownLog(log)
    ensures Ideal(log, groups, m + 1) == Step(Ideal(log, groups, m), log, groups, m)
  {
    ReplayNext(Empty, log, groups, 0, m);
  }

  lemma IdealStart(log: seq<Entry>, groups: seq<nat>)
    requires IsTable(groups) && KnownLog(log)
    ensures Ideal(log, groups, 0) == Empty
  {
    assert Range(0, 0) == [];
  }

  // The replay up to q goes on from the replay up to p.
  lemma IdealRange(log: seq<Entry>, groups: seq<nat>, p: nat, q: nat)
    requires IsTable(groups) && KnownLog(log) && p <= q <= |log|
    ensures Readable(log, Range(p, q)) && ReplaySlots(Ideal(log, groups, p), log, groups, Range(p, q)) == Ideal(log, groups, q)
  {
    RangeReadable(log, 0, p);
    RangeReadable(log, p, q);
    assert Range(0, q) == Range(0, p) + Range(p, q);
    ReplayAppend(Empty, log, groups, Range(0, p), Range(p, q));
  }

  lemma LoggedKnown(log: seq<Entry>, evs: seq<Event>, i: nat)
    requires Logged(log, evs) && i < |log|
    ensures Known(log[i])
    ensures evs[i].Enter? ==> LogType(log[i]) == LOG_ENTER && LogTimerIndex(log[i]) == evs[i].timer
    ensures evs[i].Leave? ==> LogType(log[i]) == LOG_LEAVE && LogTimerIndex(log[i]) == evs[i].timer
    ensures evs[i].Note? ==> LogType(log[i]) != LOG_ENTER && LogType(log[i]) != LOG_LEAVE
  {
    match evs[i]
    case Enter(timer, tick) => Unpack(LOG_ENTER, timer, tick);
    case Leave(timer, tick) => Unpack(LOG_LEAVE, timer, tick);
    case Note(kind, token, value) => Unpack(kind, token, value);
  }

  lemma TicksBetween(log: seq<Entry>, evs: seq<Event>, i: nat, j: nat)
    requires Logged(log, evs) && i < |evs| && j < |evs| && evs[i].Enter? && evs[j].Leave?
    requires 0 <= evs[j].tick - evs[i].tick < 0x8000_0000_0000
    ensures LogTickDifference(log[i], log[j]) == evs[j].tick - evs[i].tick
  {
    DifferenceIsExact(LOG_ENTER, evs[i].timer, evs[i].tick, LOG_LEAVE, evs[j].timer, evs[j].tick);
  }

  // The group's open timers and its credit after m events.
  ghost function OpenIn(evs: seq<Event>, groups: seq<nat>, g: nat, m: nat): (c: nat)
    requires m <= |evs|
    ensures c <= |Open(evs, m)|
  {
    OpenAscending(evs, m);
    Count(evs, groups, g, Open(evs, m))
  }

  ghost function Credit(evs: seq<Event>, groups: seq<nat>, g: nat, m: nat): nat
    requires m <= |evs|
  {
    OpenAscending(evs, m);
    |Before(Covered(evs, groups, g, m), Outermost(evs, groups, g, Open(evs, m)))|
  }

  // What the replay knows of group g after m events.
  ghost predicate Credited(s: Replay, evs: seq<Event>, groups: seq<nat>, g: nat, m: nat)
    requires m <= |evs| && g < MAX_GROUPS && Formed(s)
  {
    && s.stack == Open(evs, m) && s.groupPos[g] == OpenIn(evs, groups, g, m)
    && s.groupTicks[g] == Credit(evs, groups, g, m)
  }

  // Entering a timer leaves the time before the group's outermost timer as it is.
  lemma EnterBefore(evs: seq<Event>, groups: seq<nat>, g: nat, m: nat)
    requires WellNested(evs) && m < |evs| && evs[m].Enter?
    ensures Covered(evs, groups, g, m + 1) == Covered(evs, groups, g, m)
    ensures Before(Covered(evs, groups, g, m), At(evs[m].tick)) == Covered(evs, groups, g, m)
  {
    var c := Covered(evs, groups, g, m);
    forall t | t in c
      ensures t < evs[m].tick
    {
      CoveredBefore(evs, groups, g, m, m, t);
    }
  }

  lemma EnterOpen(evs: seq<Event>, groups: seq<nat>, g: nat, m: nat)
    requires WellNested(evs) && m < |evs| && evs[m].Enter?
    ensures Ascending(Open(evs, m), evs, m) && Ascending(Open(evs, m + 1), evs, m + 1) && |Open(evs, m)| < STACK_MAX
    ensures Open(evs, m + 1) == Open(evs, m) + [m]
    ensures Count(evs, groups, g, Open(evs, m + 1)) == Count(evs, groups, g, Open(evs, m)) + if GroupOf(evs, groups, m) == g then 1 else 0
    ensures var before := Outermost(evs, groups, g, Open(evs, m));
            Outermost(evs, groups, g, Open(evs, m + 1)) == if before == Never && GroupOf(evs, groups, m) == g then At(evs[m].tick) else before
  {
    OpenAscending(evs, m);
    OpenAscending(evs, m + 1);
    assert FitsStack(evs, m);
    assert Open(evs, m + 1)[..|Open(evs, m)|] == Open(evs, m);
  }

  lemma EnterNumbers(evs: seq<Event>, groups: seq<nat>, g: nat, m: nat)
    requires WellNested(evs) && m < |evs| && evs[m].Enter?
    ensures Open(evs, m + 1) == Open(evs, m) + [m] && |Open(evs, m)| < STACK_MAX
    ensures OpenIn(evs, groups, g, m + 1) == OpenIn(evs, groups, g, m) + if GroupOf(evs, groups, m) == g then 1 else 0
    ensures Credit(evs, groups, g, m + 1) == Credit(evs, groups, g, m)
  {
    EnterOpen(evs, groups, g, m);
    EnterBefore(evs, groups, g, m);
  }

  lemma EnterCredits(s: Replay, evs: seq<Event>, groups: seq<nat>, g: nat, m: nat)
    requires WellNested(evs) && m < |evs| && g < MAX_GROUPS && Formed(s) && IsTable(groups)
    requires Credited(s, evs, groups, g, m) && evs[m].Enter? && evs[m].timer < MAX_TIMERS
    ensures Credited(Push(s, m, groups[evs[m].timer]), evs, groups, g, m + 1)
  {
    EnterNumbers(evs, groups, g, m);
    PushCredits(s, m, groups[evs[m].timer], g);
  }

  lemma PushCredits(s: Replay, k: nat, entered: nat, g: nat)
    requires Formed(s) && entered < MAX_GROUPS && g < MAX_GROUPS && s.groupPos[g] < 255
    ensures var s' := Push(s, k, entered);
            && s'.stack == s.stack + [k] && s'.groupPos[g] == s.groupPos[g] + (if entered == g then 1 else 0)
            && s'.groupTicks[g] == s.groupTicks[g]
  {
  }

  // What leaving the innermost timer, entered at `a` and left at `b`, does to the credit of its group.
  lemma CreditOfSpan(c: set<int>, outer: Since, a: int, b: int)
    requires a <= b && (forall t :: t in c ==> t < b) && (outer.At? ==> outer.tick <= a)
    ensures var all := c + Span(a, b);
            |Before(all, outer)| == if outer.At? then |Before(c, outer)| else |Before(c, At(a))| + (b - a)
  {
    AddSpan(c, a, b);
    if outer.At? {
      assert Before(c + Span(a, b), outer) == Before(c, outer);
    }
  }

  // Leaving takes the innermost timer off.
  lemma LeaveOpen(evs: seq<Event>, groups: seq<nat>, g: nat, m: nat)
    requires WellNested(evs) && m < |evs| && evs[m].Leave?
    ensures LeavesTop(evs, m) && Ascending(Open(evs, m), evs, m) && Ascending(Open(evs, m + 1), evs, m + 1)
    ensures var open, inner := Open(evs, m), Open(evs, m + 1);
            var top := open[|open| - 1];
            && inner == open[..|open| - 1] && GroupOf(evs, groups, top) == GroupOf(evs, groups, m)
            && Ascending(inner, evs, top) && evs[top].tick <= evs[m].tick
            && Count(evs, groups, g, open) == Count(evs, groups, g, inner) + (if GroupOf(evs, groups, m) == g then 1 else 0)
            && Outermost(evs, groups, g, open) ==
                 (if Outermost(evs, groups, g, inner) == Never && GroupOf(evs, groups, m) == g then At(evs[top].tick)
                  else Outermost(evs, groups, g, inner))
  {
    OpenAscending(evs, m);
    OpenAscending(evs, m + 1);
    assert LeavesTop(evs, m);
  }

  // The covered time that counts once the innermost timer has been left.
  lemma LeaveCovered(evs: seq<Event>, groups: seq<nat>, g: nat, m: nat, top: nat, outer: Since)
    requires WellNested(evs) && m < |evs| && evs[m].Leave? && LeavesTop(evs, m) && top == Open(evs, m)[|Open(evs, m)| - 1]
    requires evs[top].tick <= evs[m].tick && (outer.At? ==> outer.tick <= evs[top].tick)
    ensures var c, d := Covered(evs, groups, g, m), evs[m].tick - evs[top].tick;
            |Before(Covered(evs, groups, g, m + 1), outer)| ==
              if GroupOf(evs, groups, m) == g && outer == Never then |Before(c, At(evs[top].tick))| + d else |Before(c, outer)|
  {
    var c := Covered(evs, groups, g, m);
    forall t | t in c
      ensures t < evs[m].tick
    {
      CoveredBefore(evs, groups, g, m, m, t);
    }
    CreditOfSpan(c, outer, evs[top].tick, evs[m].tick);
    assert Covered(evs, groups, g, m + 1) == c + ClosedBy(evs, groups, g, m);
  }

  lemma LeaveNumbers(evs: seq<Event>, groups: seq<nat>, g: nat, m: nat)
    requires WellNested(evs) && m < |evs| && evs[m].Leave?
    ensures LeavesTop(evs, m) && Open(evs, m + 1) == Open(evs, m)[..|Open(evs, m)| - 1]
    ensures OpenIn(evs, groups, g, m) == OpenIn(evs, groups, g, m + 1) + if GroupOf(evs, groups, m) == g then 1 else 0
    ensures var d := evs[m].tick - evs[Open(evs, m)[|Open(evs, m)| - 1]].tick;
            Credit(evs, groups, g, m + 1) ==
              Credit(evs, groups, g, m) + if GroupOf(evs, groups, m) == g && OpenIn(evs, groups, g, m + 1) == 0 then d else 0
  {
    LeaveOpen(evs, groups, g, m);
    var open, inner := Open(evs, m), Open(evs, m + 1);
    var top := open[|open| - 1];
    CountZero(evs, groups, g, inner);
    OutermostBefore(evs, groups, g, inner, top);
    LeaveCovered(evs, groups, g, m, top, Outermost(evs, groups, g, inner));
  }

  // The same in the replay: the group's open timers and the ticks it has.
  lemma PopCredits(s: Replay, timer: nat, left: nat, g: nat, d: int, open: nat)
    requires Formed(s) && s.stack != [] && timer < MAX_TIMERS && left < MAX_GROUPS && g < MAX_GROUPS
    requires s.groupPos[g] == open + if left == g then 1 else 0
    ensures var s' := Pop(s, timer, left, d);
            && s'.stack == s.stack[..|s.stack| - 1] && s'.groupPos[g] == open
            && s'.groupTicks[g] == s.groupTicks[g] + (if left == g && open == 0 then d else 0)
  {
  }

  lemma LeaveCredits(s: Replay, evs: seq<Event>, groups: seq<nat>, g: nat, m: nat)
    requires WellNested(evs) && m < |evs| && g < MAX_GROUPS && Formed(s) && IsTable(groups)
    requires Credited(s, evs, groups, g, m) && evs[m].Leave? && evs[m].timer < MAX_TIMERS
    ensures LeavesTop(evs, m) && s.stack != []
    ensures var top := Open(evs, m)[|Open(evs, m)| - 1];
            Credited(Pop(s, evs[m].timer, groups[evs[m].timer], evs[m].tick - evs[top].tick), evs, groups, g, m + 1)
  {
    LeaveNumbers(evs, groups, g, m);
    var top := Open(evs, m)[|Open(evs, m)| - 1];
    PopCredits(s, evs[m].timer, groups[evs[m].timer], g, evs[m].tick - evs[top].tick, OpenIn(evs, groups, g, m + 1));
  }

  lemma {:induction false} IdealCredits(log: seq<Entry>, evs: seq<Event>, groups: seq<nat>, g: nat, m: nat)
    requires Logged(log, evs) && WellNested(evs) && IsTable(groups) && g < MAX_GROUPS && m <= |evs|
    ensures KnownLog(log) && Credited(Ideal(log, groups, m), evs, groups, g, m)
  {
    forall i | 0 <= i < |log|
      ensures Known(log[i])
    {
      LoggedKnown(log, evs, i);
    }
    if m == 0 {
      IdealStart(log, groups);
    } else {
      IdealCredits(log, evs, groups, g, m - 1);
      IdealStep(log, groups, m - 1);
      StepCredits(Ideal(log, groups, m - 1), log, evs, groups, g, m - 1);
    }
  }

  lemma StepCredits(s: Replay, log: seq<Entry>, evs: seq<Event>, groups: seq<nat>, g: nat, m: nat)
    requires Logged(log, evs) && WellNested(evs) && IsTable(groups) && g < MAX_GROUPS && m < |evs|
    requires Formed(s) && InLog(s.stack, |log|) && Credited(s, evs, groups, g, m)
    ensures Known(log[m]) && Credited(Step(s, log, groups, m), evs, groups, g, m + 1)
  {
    LoggedKnown(log, evs, m);
    match evs[m]
    case Enter(_, _) => EnterCredits(s, evs, groups, g, m);
    case Leave(_, _) =>
      LeaveCredits(s, evs, groups, g, m);
      TicksBetween(log, evs, s.stack[|s.stack| - 1], m);
    case Note(_, _, _) =>
  }

  // For a well-nested log the group is credited with the time its closed timers cover, as far as
  // no timer of the group is open around it; with none open, with all of that time.
  lemma GroupTicksAreCoveredTime(log: seq<Entry>, evs: seq<Event>, groups: seq<nat>, g: nat)
    requires Logged(log, evs) && WellNested(evs) && IsTable(groups) && g < MAX_GROUPS
    ensures KnownLog(log) && Ascending(Open(evs, |evs|), evs, |evs|)
    ensures var c, open := Covered(evs, groups, g, |evs|), Open(evs, |evs|);
            && Ideal(log, groups, |log|).groupTicks[g] == |Before(c, Outermost(evs, groups, g, open))|
            && (Count(evs, groups, g, open) == 0 ==> Ideal(log, groups, |log|).groupTicks[g] == |c|)
  {
    IdealCredits(log, evs, groups, g, |evs|);
    OpenAscending(evs, |evs|);
    CountZero(evs, groups, g, Open(evs, |evs|));
  }

  /* ---------- All timers together ---------- */

  // The table that puts all timers into one group.
  function OneGroup(): (groups: seq<nat>)
    ensures IsTable(groups)
  {
    seq(MAX_TIMERS, _ => 0)
  }

  // Two replays that differ in the groups only, the second with one group for all timers: its
  // group ticks are the ticks of the lowest child slot.
  ghost predicate SameBut(a: Replay, b: Replay)
    requires Formed(a) && Formed(b)
  {
    && a.stack == b.stack && a.child == b.child && a.exclusive == b.exclusive
    && b.groupPos[0] == |b.stack| && b.groupTicks[0] == b.child[0]
  }

  lemma PushSame(a: Replay, b: Replay, k: nat, g: nat)
    requires Formed(a) && Formed(b) && SameBut(a, b) && g < MAX_GROUPS && |a.stack| < STACK_MAX - 1
    ensures SameBut(Push(a, k, g), Push(b, k, 0))
  {
  }

  lemma PopSame(a: Replay, b: Replay, timer: nat, g: nat, d: int)
    requires Formed(a) && Formed(b) && SameBut(a, b) && timer < MAX_TIMERS && g < MAX_GROUPS && a.stack != []
    ensures SameBut(Pop(a, timer, g, d), Pop(b, timer, 0, d))
  {
  }

  lemma StepSame(a: Replay, b: Replay, log: seq<Entry>, groups: seq<nat>, k: nat)
    requires Formed(a) && Formed(b) && SameBut(a, b) && IsTable(groups) && k < |log| && Known(log[k])
    requires InLog(a.stack, |log|) && |a.stack| < STACK_MAX && |Step(a, log, groups, k).stack| < STACK_MAX
    ensures SameBut(Step(a, log, groups, k), Step(b, log, OneGroup(), k))
  {
    var e := log[k];
    var timer := LogTimerIndex(e);
    if LogType(e) == LOG_ENTER {
      PushSame(a, b, k, groups[timer]);
    } else if LogType(e) == LOG_LEAVE && a.stack != [] {
      PopSame(a, b, timer, groups[timer], LogTickDifference(log[a.stack[|a.stack| - 1]], e));
    }
  }

  // The replay's stack is the open enters.
  lemma IdealOpen(log: seq<Entry>, evs: seq<Event>, groups: seq<nat>, m: nat)
    requires Logged(log, evs) && WellNested(evs) && IsTable(groups) && m <= |evs|
    ensures KnownLog(log) && Ideal(log, groups, m).stack == Open(evs, m)
    ensures |Open(evs, m)| < STACK_MAX
  {
    IdealCredits(log, evs, groups, 0, m);
    assert FitsStack(evs, m);
  }

  lemma EmptyFacts()
    ensures SameBut(Empty, Empty) && Balance(Empty) == 0
  {
    SumZeros(MAX_TIMERS);
    assert Sum([0]) == 0;
  }

  lemma {:induction false} IdealSame(log: seq<Entry>, evs: seq<Event>, groups: seq<nat>, m: nat)
    requires Logged(log, evs) && WellNested(evs) && IsTable(groups) && m <= |evs|
    ensures KnownLog(log) && SameBut(Ideal(log, groups, m), Ideal(log, OneGroup(), m))
  {
    IdealOpen(log, evs, groups, m);
    if m == 0 {
      IdealStart(log, groups);
      IdealStart(log, OneGroup());
      EmptyFacts();
    } else {
      IdealSame(log, evs, groups, m - 1);
      IdealOpen(log, evs, groups, m - 1);
      IdealStep(log, groups, m - 1);
      IdealStep(log, OneGroup(), m - 1);
      StepSame(Ideal(log, groups, m - 1), Ideal(log, OneGroup(), m - 1), log, groups, m - 1);
    }
  }

  lemma IdealBalance(log: seq<Entry>, groups: seq<nat>, m: nat)
    requires IsTable(groups) && m <= |log| && KnownLog(log)
    ensures Balance(Ideal(log, groups, m)) == Balance(Empty)
  {
    RangeReadable(log, 0, m);
    ExclusiveConserved(Empty, log, groups, Range(0, m));
  }

  lemma TopOnly(s: Replay)
    requires Formed(s) && s.stack == [] && Balance(s) == Balance(Empty)
    ensures Sum(s.exclusive) == s.child[0]
  {
    EmptyFacts();
    assert s.child == [s.child[0]];
    assert Sum([s.child[0]]) == s.child[0];
  }

  // When every timer has been left, the exclusive ticks of all timers add up to the time during
  // which some timer was running.
  lemma ExclusiveIsBusyTime(log: seq<Entry>, evs: seq<Event>, groups: seq<nat>)
    requires Logged(log, evs) && WellNested(evs) && IsTable(groups) && Open(evs, |evs|) == []
    ensures KnownLog(log)
    ensures Sum(Ideal(log, groups, |log|).exclusive) == |Covered(evs, OneGroup(), 0, |evs|)|
  {
    IdealSame(log, evs, groups, |evs|);
    IdealBalance(log, groups, |evs|);
    IdealOpen(log, evs, groups, |evs|);
    TopOnly(Ideal(log, groups, |evs|));
    GroupTicksAreCoveredTime(log, evs, OneGroup(), 0);
  }
}
