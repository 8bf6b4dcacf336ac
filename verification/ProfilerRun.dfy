/**
 Whole runs of the profiler for one thread: writes into the ring and flips that replay their
 windows from it, against the replay of the accepted entries from a log that never wraps.
 */
module ProfilerRun {
  import opened ProfilerTicks
  import opened ProfilerRing
  import opened ProfilerReplay
  import opened ProfilerGroups
  import opened ProfilerTimers

  /* ---------- Replaying from the ring ---------- */

  function SlotsOf(s: seq<nat>, n: nat): (r: seq<nat>)
    requires n > 0
    ensures |r| == |s| && forall i :: 0 <= i < |s| ==> r[i] == Slot(s[i], n)
  {
    seq(|s|, i requires 0 <= i < |s| => Slot(s[i], n))
  }

  // The replay as the ring sees it: slots on the stack instead of positions.
  function InSlots(s: Replay, n: nat): Replay
    requires n > 0
  {
    s.(stack := SlotsOf(s.stack, n))
  }

  // The ring still holds the entries at these positions.
  ghost predicate Kept(s: seq<nat>, total: nat, n: nat) {
    forall i :: 0 <= i < |s| ==> s[i] < total <= s[i] + n
  }

  lemma PushInSlots(s: Replay, k: nat, g: nat, n: nat)
    requires Formed(s) && g < MAX_GROUPS && n > 0
    ensures Formed(InSlots(s, n)) && Push(InSlots(s, n), Slot(k, n), g) == InSlots(Push(s, k, g), n)
  {
    assert SlotsOf(s.stack + [k], n) == SlotsOf(s.stack, n) + [Slot(k, n)];
  }

  lemma PopInSlots(s: Replay, timer: nat, g: nat, t: int, n: nat)
    requires Formed(s) && g < MAX_GROUPS && timer < MAX_TIMERS && s.stack != [] && n > 0
    ensures Formed(InSlots(s, n)) && Pop(InSlots(s, n), timer, g, t) == InSlots(Pop(s, timer, g, t), n)
  {
    var top := |s.stack| - 1;
    assert SlotsOf(s.stack[..top], n) == SlotsOf(s.stack, n)[..top];
  }

  lemma StepInSlots(s: Replay, log: seq<Entry>, accepted: seq<Entry>, groups: seq<nat>, k: nat)
    requires Formed(s) && IsTable(groups) && HoldsLast(log, accepted) && KnownLog(accepted)
    requires k < |accepted| <= k + |log| && Kept(s.stack, |accepted|, |log|)
    ensures var n := |log|;
            && Known(log[Slot(k, n)]) && Formed(InSlots(s, n)) && InLog(s.stack, |accepted|)
            && Step(InSlots(s, n), log, groups, Slot(k, n)) == InSlots(Step(s, accepted, groups, k), n)
  {
    var n := |log|;
    assert log[Slot(k, n)] == accepted[k];
    var timer := LogTimerIndex(accepted[k]);
    PushInSlots(s, k, groups[timer], n);
    if s.stack != [] {
      var top := s.stack[|s.stack| - 1];
      assert log[Slot(top, n)] == accepted[top];
      PopInSlots(s, timer, groups[timer], LogTickDifference(accepted[top], accepted[k]), n);
    }
  }

  lemma StepKept(s: Replay, accepted: seq<Entry>, groups: seq<nat>, k: nat, n: nat)
    requires Formed(s) && IsTable(groups) && KnownLog(accepted) && k < |accepted| <= k + n && Kept(s.stack, |accepted|, n)
    ensures InLog(s.stack, |accepted|) && Kept(Step(s, accepted, groups, k).stack, |accepted|, n)
  {
  }

  lemma SlotsReadable(log: seq<Entry>, accepted: seq<Entry>, ps: seq<nat>)
    requires HoldsLast(log, accepted) && KnownLog(accepted) && Kept(ps, |accepted|, |log|)
    ensures Readable(log, SlotsOf(ps, |log|)) && Readable(accepted, ps)
  {
    var n := |log|;
    forall i | 0 <= i < |ps|
      ensures Known(log[SlotsOf(ps, n)[i]])
    {
      assert log[Slot(ps[i], n)] == accepted[ps[i]];
    }
  }

  lemma InSlotsFormed(s: Replay, n: nat)
    requires Formed(s) && n > 0
    ensures Formed(InSlots(s, n)) && InLog(InSlots(s, n).stack, n)
  {
  }

  lemma KeptInLog(s: seq<nat>, total: nat, n: nat)
    requires Kept(s, total, n)
    ensures InLog(s, total)
  {
  }

  // Replaying positions from the ring is replaying them from the log that never wraps.
  lemma {:induction false} ReplayInSlots(s: Replay, log: seq<Entry>, accepted: seq<Entry>, groups: seq<nat>, ps: seq<nat>)
    requires Formed(s) && IsTable(groups) && HoldsLast(log, accepted) && KnownLog(accepted)
    requires Kept(s.stack, |accepted|, |log|) && Kept(ps, |accepted|, |log|)
    ensures Formed(InSlots(s, |log|)) && InLog(InSlots(s, |log|).stack, |log|) && InLog(s.stack, |accepted|)
    ensures Readable(log, SlotsOf(ps, |log|)) && Readable(accepted, ps)
    ensures ReplaySlots(InSlots(s, |log|), log, groups, SlotsOf(ps, |log|)) == InSlots(ReplaySlots(s, accepted, groups, ps), |log|)
    ensures Kept(ReplaySlots(s, accepted, groups, ps).stack, |accepted|, |log|)
    decreases |ps|
  {
    var n := |log|;
    SlotsReadable(log, accepted, ps);
    InSlotsFormed(s, n);
    KeptInLog(s.stack, |accepted|, n);
    if ps == [] {
      assert SlotsOf(ps, n) == [];
    } else {
      var init, k := ps[..|ps| - 1], ps[|ps| - 1];
      ReplayInSlots(s, log, accepted, groups, init);
      LastSlotOf(ps, n);
      NextInSlots(s, log, accepted, groups, init, k);
    }
  }

  lemma LastSlotOf(ps: seq<nat>, n: nat)
    requires ps != [] && n > 0
    ensures var init, k := ps[..|ps| - 1], ps[|ps| - 1];
            SlotsOf(ps, n) == SlotsOf(init, n) + [Slot(k, n)] && ps == init + [k]
  {
  }

  lemma NextInSlots(s: Replay, log: seq<Entry>, accepted: seq<Entry>, groups: seq<nat>, init: seq<nat>, k: nat)
    requires Formed(s) && IsTable(groups) && HoldsLast(log, accepted) && KnownLog(accepted) && k < |accepted| <= k + |log|
    requires Formed(InSlots(s, |log|)) && InLog(InSlots(s, |log|).stack, |log|) && InLog(s.stack, |accepted|)
    requires Readable(log, SlotsOf(init, |log|)) && Readable(accepted, init)
    requires Readable(log, SlotsOf(init, |log|) + [Slot(k, |log|)]) && Readable(accepted, init + [k])
    requires ReplaySlots(InSlots(s, |log|), log, groups, SlotsOf(init, |log|)) == InSlots(ReplaySlots(s, accepted, groups, init), |log|)
    requires Kept(ReplaySlots(s, accepted, groups, init).stack, |accepted|, |log|)
    ensures ReplaySlots(InSlots(s, |log|), log, groups, SlotsOf(init, |log|) + [Slot(k, |log|)]) ==
            InSlots(ReplaySlots(s, accepted, groups, init + [k]), |log|)
    ensures Kept(ReplaySlots(s, accepted, groups, init + [k]).stack, |accepted|, |log|)
  {
    ReplayLast(InSlots(s, |log|), log, groups, SlotsOf(init, |log|), Slot(k, |log|));
    ReplayLast(s, accepted, groups, init, k);
    StepInSlots(ReplaySlots(s, accepted, groups, init), log, accepted, groups, k);
    StepKept(ReplaySlots(s, accepted, groups, init), accepted, groups, k, |log|);
  }

  lemma {:induction false} IdealPrefix(a: seq<Entry>, b: seq<Entry>, groups: seq<nat>, m: nat)
    requires IsTable(groups) && KnownLog(a) && KnownLog(b) && m <= |a| && m <= |b| && a[..m] == b[..m]
    ensures Ideal(a, groups, m) == Ideal(b, groups, m) && InLog(Ideal(a, groups, m).stack, m)
  {
    if m == 0 {
      IdealStart(a, groups);
      IdealStart(b, groups);
    } else {
      assert a[..m - 1] == a[..m][..m - 1] == b[..m - 1];
      assert a[m - 1] == a[..m][m - 1] == b[m - 1];
      IdealPrefix(a, b, groups, m - 1);
      IdealStep(a, groups, m - 1);
      IdealStep(b, groups, m - 1);
      PrefixStep(Ideal(a, groups, m - 1), a, b, groups, m - 1);
    }
  }

  lemma PrefixStep(s: Replay, a: seq<Entry>, b: seq<Entry>, groups: seq<nat>, k: nat)
    requires Formed(s) && IsTable(groups) && InLog(s.stack, k) && k < |a| && k < |b| && Known(a[k])
    requires a[..k] == b[..k] && a[k] == b[k]
    ensures Step(s, a, groups, k) == Step(s, b, groups, k) && InLog(Step(s, a, groups, k).stack, k + 1)
  {
    if s.stack != [] {
      var top := s.stack[|s.stack| - 1];
      assert a[top] == a[..k][top] == b[top];
    }
  }

  lemma SlotsOfRange(p: nat, q: nat, n: nat)
    requires n > 0 && p <= q
    ensures Slots(p, q, n) == SlotsOf(Range(p, q), n)
  {
    forall i | 0 <= i < q - p
      ensures Slots(p, q, n)[i] == SlotsOf(Range(p, q), n)[i]
    {
      SlotsAt(p, q, n, i);
    }
  }

  /* ---------- Whole runs ---------- */

  datatype Whole = Whole(run: Run, flips: Flips)

  ghost predicate Sound(x: Whole) {
    && Shape(x.run.ring) && KnownLog(x.run.ring.log)
    && Formed(x.flips.s) && IsTotals(x.flips.t) && InLog(x.flips.s.stack, |x.run.ring.log|)
  }

  ghost predicate KnownAction(a: Action) {
    a.Write? ==> Known(a.e)
  }

  lemma WindowReadable(r: Ring)
    requires Shape(r) && KnownLog(r.log)
    ensures Readable(r.log, Window(r))
  {
  }

  // A write goes into the ring; a flip replays its window out of the ring as it is then.
  ghost function DoWhole(x: Whole, groups: seq<nat>, a: Action): (x': Whole)
    requires Sound(x) && IsTable(groups) && KnownAction(a)
    ensures Sound(x') && |x'.run.ring.log| == |x.run.ring.log|
  {
    var run := Do(x.run, a);
    if a.Write? then Whole(run, x.flips) else
    WindowReadable(run.ring);
    Whole(run, NextFlip(x.flips, Frame(run.ring.log, Window(run.ring)), groups))
  }

  ghost function RunWhole(size: nat, groups: seq<nat>, actions: seq<Action>): (x: Whole)
    requires size > 0 && IsTable(groups) && forall i :: 0 <= i < |actions| ==> KnownAction(actions[i])
    ensures Sound(x) && |x.run.ring.log| == size
  {
    if actions == [] then Whole(Start(size), Flips(Empty, NoTotals)) else
    DoWhole(RunWhole(size, groups, actions[..|actions| - 1]), groups, actions[|actions| - 1])
  }

  // The flips have done what the replay of the accepted entries does up to the last window's end.
  ghost predicate InStep(x: Whole, groups: seq<nat>) {
    && Sound(x) && Inv(x.run) && KnownLog(x.run.accepted) && IsTable(groups) && Last(x.run.marks) <= |x.run.accepted|
    && Carry(x.flips.s, x.flips.t) == InSlots(Ideal(x.run.accepted, groups, Last(x.run.marks)), |x.run.ring.log|)
  }

  lemma IdealGrows(log: seq<Entry>, e: Entry, groups: seq<nat>, m: nat)
    requires IsTable(groups) && KnownLog(log) && Known(e) && m <= |log|
    ensures KnownLog(log + [e]) && Ideal(log + [e], groups, m) == Ideal(log, groups, m)
  {
    assert log[..m] == (log + [e])[..m];
    IdealPrefix(log, log + [e], groups, m);
  }

  lemma WriteInStep(x: Whole, groups: seq<nat>, e: Entry)
    requires InStep(x, groups) && Known(e)
    ensures InStep(DoWhole(x, groups, Write(e)), groups)
  {
    WriteKeeps(x.run, e);
    if !Full(x.run.ring) {
      IdealGrows(x.run.accepted, e, groups, Last(x.run.marks));
    }
  }

  // At a flip the ring has not gone around past the window, nor past any timer open before it.
  ghost predicate StillThere(x: Whole, groups: seq<nat>)
    requires Sound(x) && IsTable(groups) && KnownLog(x.run.accepted) && Last(x.run.marks) <= |x.run.accepted|
  {
    var total, n := |x.run.accepted|, |x.run.ring.log|;
    total <= Last(x.run.marks) + n && Kept(Ideal(x.run.accepted, groups, Last(x.run.marks)).stack, total, n)
  }

  lemma RingGoesOn(s: Replay, log: seq<Entry>, accepted: seq<Entry>, groups: seq<nat>, p: nat, q: nat)
    requires IsTable(groups) && HoldsLast(log, accepted) && KnownLog(accepted)
    requires p <= q <= |accepted| <= p + |log| && Kept(Ideal(accepted, groups, p).stack, |accepted|, |log|)
    requires s == InSlots(Ideal(accepted, groups, p), |log|)
    ensures Formed(s) && InLog(s.stack, |log|) && Readable(log, Slots(p, q, |log|))
    ensures ReplaySlots(s, log, groups, Slots(p, q, |log|)) == InSlots(Ideal(accepted, groups, q), |log|)
  {
    SlotsOfRange(p, q, |log|);
    ReplayInSlots(Ideal(accepted, groups, p), log, accepted, groups, Range(p, q));
    IdealRange(accepted, groups, p, q);
  }

  // The replay of one window, on values.
  lemma WindowInStep(s: Replay, t: Totals, log: seq<Entry>, accepted: seq<Entry>, groups: seq<nat>, p: nat, q: nat)
    requires Formed(s) && IsTotals(t) && IsTable(groups) && HoldsLast(log, accepted) && KnownLog(accepted) && InLog(s.stack, |log|)
    requires p <= q <= |accepted| <= p + |log| && Kept(Ideal(accepted, groups, p).stack, |accepted|, |log|)
    requires Carry(s, t) == InSlots(Ideal(accepted, groups, p), |log|)
    ensures Readable(log, Slots(p, q, |log|))
    ensures var s' := FlipReplay(s, log, groups, Slots(p, q, |log|));
            Carry(s', Added(t, s')) == InSlots(Ideal(accepted, groups, q), |log|)
  {
    RingGoesOn(Carry(s, t), log, accepted, groups, p, q);
    FlipContinues(t, s, log, groups, Slots(p, q, |log|));
  }

  lemma EndFrameInStep(x: Whole, groups: seq<nat>)
    requires InStep(x, groups) && StillThere(x, groups)
    ensures InStep(DoWhole(x, groups, EndFrame), groups)
  {
    EndFrameKeeps(x.run);
    var run := Do(x.run, EndFrame);
    WindowIs(run);
    assert First(run.marks) == Last(x.run.marks);
    WindowInStep(x.flips.s, x.flips.t, run.ring.log, run.accepted, groups, Last(x.run.marks), Last(run.marks));
  }

  // What a run must allow for: at every flip, the entries that are still needed are still there.
  ghost predicate Roomy(size: nat, groups: seq<nat>, actions: seq<Action>)
    requires size > 0 && IsTable(groups) && forall i :: 0 <= i < |actions| ==> KnownAction(actions[i])
  {
    actions == [] ||
    var before, last := actions[..|actions| - 1], actions[|actions| - 1];
    Roomy(size, groups, before) && (last.EndFrame? ==> RoomyFlip(RunWhole(size, groups, before), groups))
  }

  ghost predicate RoomyFlip(x: Whole, groups: seq<nat>)
    requires Sound(x) && IsTable(groups)
  {
    KnownLog(x.run.accepted) && Last(x.run.marks) <= |x.run.accepted| && StillThere(x, groups)
  }

  lemma StartInStep(size: nat, groups: seq<nat>)
    requires size > 0 && IsTable(groups)
    ensures InStep(RunWhole(size, groups, []), groups)
  {
    RunKeeps(size, []);
    IdealStart([], groups);
    assert SlotsOf([], size) == [];
  }

  // In every run with room, the ring, the delayed windows and the per-flip counters together do
  // what one replay of the accepted entries in order does.
  lemma {:induction false} RunInStep(size: nat, groups: seq<nat>, actions: seq<Action>)
    requires size > 0 && IsTable(groups) && forall i :: 0 <= i < |actions| ==> KnownAction(actions[i])
    requires Roomy(size, groups, actions)
    ensures InStep(RunWhole(size, groups, actions), groups)
  {
    if actions == [] {
      StartInStep(size, groups);
    } else {
      var before, last := actions[..|actions| - 1], actions[|actions| - 1];
      RunInStep(size, groups, before);
      match last
      case Write(e) => WriteInStep(RunWhole(size, groups, before), groups, e);
      case EndFrame => EndFrameInStep(RunWhole(size, groups, before), groups);
    }
  }

  // In such a run, if the entries up to the last window's end are those of a well-nested thread,
  // then every group with no open timer has been credited with the time that its closed timers
  // cover, and with no timer open at all the exclusive ticks are the time during which some timer
  // was running.
  lemma TotalsAreTrueTime(size: nat, groups: seq<nat>, actions: seq<Action>, evs: seq<Event>)
    requires size > 0 && IsTable(groups) && forall i :: 0 <= i < |actions| ==> KnownAction(actions[i])
    requires Roomy(size, groups, actions) && WellNested(evs)
    requires var w := RunWhole(size, groups, actions).run;
             Last(w.marks) <= |w.accepted| && Logged(w.accepted[..Last(w.marks)], evs)
    ensures Ascending(Open(evs, |evs|), evs, |evs|)
    ensures var t, open := RunWhole(size, groups, actions).flips.t, Open(evs, |evs|);
            && (forall g :: 0 <= g < MAX_GROUPS && Count(evs, groups, g, open) == 0 ==> t.groupTicks[g] == |Covered(evs, groups, g, |evs|)|)
            && (open == [] ==> Sum(t.exclusive) == |Covered(evs, OneGroup(), 0, |evs|)|)
  {
    var x := RunWhole(size, groups, actions);
    var acc, m := x.run.accepted, Last(x.run.marks);
    var log := acc[..m];
    RunInStep(size, groups, actions);
    IdealPrefix(acc, log, groups, m);
    OpenAscending(evs, |evs|);
    forall g | 0 <= g < MAX_GROUPS
      ensures Count(evs, groups, g, Open(evs, |evs|)) == 0 ==> x.flips.t.groupTicks[g] == |Covered(evs, groups, g, |evs|)|
    {
      GroupTicksAreCoveredTime(log, evs, groups, g);
    }
    if Open(evs, |evs|) == [] {
      ExclusiveIsBusyTime(log, evs, groups);
    }
  }

  // And every timer has been credited with the lengths of its closed intervals, counted once each, and
  // exclusively with the time during which one of them is innermost.
  lemma TimersAreTrueTime(size: nat, groups: seq<nat>, actions: seq<Action>, evs: seq<Event>, i: nat)
    requires size > 0 && IsTable(groups) && forall i :: 0 <= i < |actions| ==> KnownAction(actions[i])
    requires Roomy(size, groups, actions) && WellNested(evs) && i < MAX_TIMERS
    requires var w := RunWhole(size, groups, actions).run;
             Last(w.marks) <= |w.accepted| && Logged(w.accepted[..Last(w.marks)], evs)
    ensures var t := RunWhole(size, groups, actions).flips.t;
            && t.ticks[i] == TimeOf(evs, i, |evs|) && t.count[i] == TimesClosed(evs, i, |evs|)
            && t.exclusive[i] == |OwnTime(evs, i, |evs|)|
  {
    var x := RunWhole(size, groups, actions);
    var acc, m := x.run.accepted, Last(x.run.marks);
    RunInStep(size, groups, actions);
    TimerIsTrueTime(acc[..m], evs, groups, i);
    IdealPrefix(acc, acc[..m], groups, m);
  }
}
