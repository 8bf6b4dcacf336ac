/**
 The socket ownership protocol of the HTTP client as a step relation over any number of
 threads that call `send` and `stop`.  The request mutex is recursive and held for a whole
 call of `send`; each section under the socket mutex is one step, since nothing else that
 touches the shared fields can run while it is held.
 */
module ClientSocket {
  import opened Common

  type Thread = nat

  // One call of `send`: about to start an attempt, with its request in flight, or done with
  // an attempt.  `again` says that a further attempt is still allowed.
  datatype Frame = Entering(again: bool) | Open(again: bool) | Finished(again: bool)

  datatype State = State(
    stacks: map<Thread, seq<Frame>>, owner: Option<Thread>, depth: nat,
    open: bool, inFlight: int, from: Option<Thread>, shouldClose: bool)

  datatype Step =
    | CallSend(t: Thread)                          // lock the request mutex
    | Enter(t: Thread, alive: bool, connects: bool) // the first section of an attempt
    | HandlerCloses(t: Thread)                     // the response asks to close the connection
    | Leave(t: Thread, ret: bool, closeConnection: bool) // the section at the end of an attempt
    | Retry(t: Thread)                             // a second attempt after a closed TLS peer
    | Return(t: Thread)                            // unlock the request mutex
    | Stop(t: Thread)

  function Stack(s: State, t: Thread): seq<Frame> {
    if t in s.stacks then s.stacks[t] else []
  }

  function Last(stack: seq<Frame>): Frame
    requires stack != []
  {
    stack[|stack| - 1]
  }

  function SetLast(stack: seq<Frame>, f: Frame): seq<Frame>
    requires stack != []
  {
    stack[..|stack| - 1] + [f]
  }

  function SetStack(s: State, t: Thread, stack: seq<Frame>): State {
    s.(stacks := s.stacks[t := stack])
  }

  // The frames of a thread whose request is in flight.
  function OpenFrames(stack: seq<Frame>): nat {
    if stack == [] then 0 else OpenFrames(stack[..|stack| - 1]) + if Last(stack).Open? then 1 else 0
  }

  predicate Init(s: State) {
    s == State(map[], None, 0, false, 0, None, false)
  }

  // `send` may be called by a thread that has no call under way, or from inside its own request.
  predicate MayCall(s: State, t: Thread) {
    && (s.owner == None || s.owner == Some(t))
    && (Stack(s, t) == [] || Last(Stack(s, t)).Open?)
  }

  predicate Next(s: State, step: Step, s': State) {
    match step
    case CallSend(t) =>
      MayCall(s, t) && s' == SetStack(s, t, Stack(s, t) + [Entering(true)]).(owner := Some(t), depth := s.depth + 1)
    case Enter(t, alive, connects) =>
      && Stack(s, t) != [] && Last(Stack(s, t)).Entering?
      && var again := Last(Stack(s, t)).again;
         if (s.open && alive) || connects then
           s' == SetStack(s, t, SetLast(Stack(s, t), Open(again))).(
                   shouldClose := false, open := true, inFlight := s.inFlight + 1, from := Some(t))
         else
           s' == SetStack(s, t, SetLast(Stack(s, t), Finished(again))).(shouldClose := false, open := false)
    case HandlerCloses(t) =>
      Stack(s, t) != [] && Last(Stack(s, t)).Open? && s' == s.(open := false)
    case Leave(t, ret, closeConnection) =>
      && Stack(s, t) != [] && Last(Stack(s, t)).Open?
      && s' == SetStack(s, t, SetLast(Stack(s, t), Finished(Last(Stack(s, t)).again))).(
                 inFlight := s.inFlight - 1,
                 from := if s.inFlight - 1 <= 0 then None else s.from,
                 open := s.open && !(s.shouldClose || closeConnection || !ret))
    case Retry(t) =>
      && Stack(s, t) != [] && Last(Stack(s, t)) == Finished(true)
      && s' == SetStack(s, t, SetLast(Stack(s, t), Entering(false)))
    case Return(t) =>
      && Stack(s, t) != [] && Last(Stack(s, t)).Finished? && s.depth > 0
      && s' == SetStack(s, t, Stack(s, t)[..|Stack(s, t)| - 1]).(
                 depth := s.depth - 1, owner := if s.depth == 1 then None else s.owner)
    case Stop(t) =>
      if s.inFlight > 0 then s' == s.(shouldClose := true) else s' == s.(open := false)
  }

  // The step closes the socket: the source asserts then that nobody else is using it.
  predicate Closes(s: State, step: Step) {
    match step
    case Enter(t, alive, connects) => s.open && !alive
    case HandlerCloses(t) => true
    case Leave(t, ret, closeConnection) => s.shouldClose || closeConnection || !ret
    case Stop(t) => s.inFlight <= 0
    case _ => false
  }

  function ThreadOf(step: Step): Thread {
    step.t
  }

  // The values that the assertion in `close_socket` looks at: `Leave` has counted itself out before.
  predicate AssertionHolds(s: State, step: Step) {
    var inFlight := if step.Leave? then s.inFlight - 1 else s.inFlight;
    inFlight == 0 || s.from == Some(ThreadOf(step))
  }

  /* ---------- What every step keeps ---------- */

  ghost predicate StackInv(stack: seq<Frame>) {
    forall k :: 0 <= k < |stack| - 1 ==> stack[k].Open?
  }

  ghost predicate OwnerInv(s: State) {
    && (forall t :: t in s.stacks && s.stacks[t] != [] ==> s.owner == Some(t))
    && (s.owner == None ==> s.depth == 0)
    && (s.owner.Some? ==> s.depth == |Stack(s, s.owner.value)| > 0)
    && (forall t :: t in s.stacks ==> StackInv(s.stacks[t]))
  }

  // The counter is the number of open frames of the thread that holds the request mutex.
  ghost predicate CountInv(s: State) {
    && s.inFlight == (if s.owner.Some? then OpenFrames(Stack(s, s.owner.value)) else 0)
    && s.from == (if s.inFlight > 0 then s.owner else None)
  }

  ghost predicate Inv(s: State) {
    OwnerInv(s) && CountInv(s)
  }

  lemma InitInv(s: State)
    requires Init(s)
    ensures Inv(s)
  {
  }

  lemma OpenFramesPush(stack: seq<Frame>, f: Frame)
    ensures OpenFrames(stack + [f]) == OpenFrames(stack) + if f.Open? then 1 else 0
  {
    assert (stack + [f])[..|stack|] == stack;
  }

  lemma OpenFramesSet(stack: seq<Frame>, f: Frame)
    requires stack != []
    ensures OpenFrames(SetLast(stack, f)) == OpenFrames(stack) - (if Last(stack).Open? then 1 else 0) + (if f.Open? then 1 else 0)
  {
    OpenFramesPush(stack[..|stack| - 1], f);
  }

  lemma OwnerStep(s: State, step: Step, s': State)
    requires Inv(s) && Next(s, step, s')
    ensures OwnerInv(s')
  {
    var t := ThreadOf(step);
    if !step.Stop? && Stack(s, t) != [] {
      assert t in s.stacks && s.owner == Some(t);
    }
  }

  // The steps that replace the last frame of the mutex holder.
  lemma CountReplaced(s: State, step: Step, s': State)
    requires Inv(s) && Next(s, step, s') && (step.Enter? || step.Leave? || step.Retry?)
    ensures CountInv(s')
  {
    var t := ThreadOf(step);
    assert t in s.stacks && s.owner == Some(t);
    OpenFramesSet(Stack(s, t), Last(Stack(s', t)));
  }

  lemma CountReturn(s: State, step: Step, s': State)
    requires Inv(s) && Next(s, step, s') && step.Return?
    ensures CountInv(s')
  {
    var t := ThreadOf(step);
    assert t in s.stacks && s.owner == Some(t);
    var stack := Stack(s, t);
    assert OpenFrames(stack) == OpenFrames(stack[..|stack| - 1]);
    if |stack| == 1 {
      assert stack[..|stack| - 1] == [];
    }
  }

  lemma CountStep(s: State, step: Step, s': State)
    requires Inv(s) && Next(s, step, s')
    ensures CountInv(s')
  {
    match step
    case CallSend(t) => OpenFramesPush(Stack(s, t), Entering(true));
    case Return(_) => CountReturn(s, step, s');
    case HandlerCloses(_) =>
    case Stop(_) =>
    case _ => CountReplaced(s, step, s');
  }

  lemma StepInv(s: State, step: Step, s': State)
    requires Inv(s) && Next(s, step, s')
    ensures Inv(s')
  {
    OwnerStep(s, step, s');
    CountStep(s, step, s');
  }

  // No thread closes the socket while another has a request in flight, and the assertion holds.
  lemma CloseIsSafe(s: State, step: Step, s': State)
    requires Inv(s) && Next(s, step, s') && Closes(s, step)
    ensures AssertionHolds(s, step)
    ensures forall u :: u in s.stacks && u != ThreadOf(step) ==> OpenFrames(s.stacks[u]) == 0
  {
    var t := ThreadOf(step);
    forall u | u in s.stacks && u != t
      ensures OpenFrames(s.stacks[u]) == 0
    {
      if s.stacks[u] != [] {
        assert s.owner == Some(u);
      }
    }
    if !step.Stop? {
      assert t in s.stacks && s.owner == Some(t);
    }
  }

  /* ---------- Over whole runs ---------- */

  ghost predicate IsRun(states: seq<State>, steps: seq<Step>) {
    && |states| == |steps| + 1 && Init(states[0])
    && forall k :: 0 <= k < |steps| ==> Next(states[k], steps[k], states[k + 1])
  }

  lemma {:induction false} Reachable(states: seq<State>, steps: seq<Step>, k: nat)
    requires IsRun(states, steps) && k < |states|
    ensures Inv(states[k])
  {
    if k == 0 {
      InitInv(states[0]);
    } else {
      Reachable(states, steps, k - 1);
      assert Next(states[k - 1], steps[k - 1], states[k - 1 + 1]);
      StepInv(states[k - 1], steps[k - 1], states[k]);
    }
  }

  // In every interleaving: the closing thread is alone, and the counter counts the open frames
  // of the thread that holds the request mutex.
  lemma SafeInEveryRun(states: seq<State>, steps: seq<Step>, k: nat)
    requires IsRun(states, steps) && k < |steps|
    ensures CountInv(states[k])
    ensures Closes(states[k], steps[k]) ==>
              && AssertionHolds(states[k], steps[k])
              && forall u :: u in states[k].stacks && u != ThreadOf(steps[k]) ==> OpenFrames(states[k].stacks[u]) == 0
  {
    Reachable(states, steps, k);
    assert Next(states[k], steps[k], states[k + 1]);
    if Closes(states[k], steps[k]) {
      CloseIsSafe(states[k], steps[k], states[k + 1]);
    }
  }

  // A stop at step `j` that met a request in flight and was not followed by a new attempt before `m`.
  ghost predicate Standing(states: seq<State>, steps: seq<Step>, j: nat, m: nat) {
    && j < m < |states| && |states| == |steps| + 1
    && steps[j].Stop? && states[j].inFlight > 0
    && forall i :: j < i < m ==> !steps[i].Enter?
  }

  // The deferred close is remembered exactly while no new attempt has begun since the stop.
  lemma {:induction false} StopRemembered(states: seq<State>, steps: seq<Step>, m: nat)
    requires IsRun(states, steps) && m < |states|
    ensures states[m].shouldClose <==> exists j: nat :: Standing(states, steps, j, m)
  {
    if m > 0 {
      var k := m - 1;
      StopRemembered(states, steps, k);
      assert Next(states[k], steps[k], states[k + 1]);
      if states[m].shouldClose {
        if steps[k].Stop? && states[k].inFlight > 0 {
          assert Standing(states, steps, k, m);
        } else {
          assert states[k].shouldClose;
          var j: nat :| Standing(states, steps, j, k);
          assert Standing(states, steps, j, m);
        }
      }
      if exists j: nat :: Standing(states, steps, j, m) {
        var j: nat :| Standing(states, steps, j, m);
        if j < k {
          assert Standing(states, steps, j, k);
        }
      }
    }
  }

  // When an attempt ends, a stop that still stands leaves the socket closed; without one, a kept
  // connection whose attempt succeeded stays as it was.
  lemma EndOfAttempt(states: seq<State>, steps: seq<Step>, m: nat)
    requires IsRun(states, steps) && m < |steps| && steps[m].Leave?
    ensures (exists j: nat :: Standing(states, steps, j, m)) ==> !states[m + 1].open
    ensures !(exists j: nat :: Standing(states, steps, j, m)) && steps[m].ret && !steps[m].closeConnection ==>
              states[m + 1].open == states[m].open
  {
    StopRemembered(states, steps, m);
    assert Next(states[m], steps[m], states[m + 1]);
  }

  /* ----- Whole requests ----- */

  // The step has a socket when it is done with the first section of an attempt.
  predicate Connects(s: State, step: Step) {
    step.Enter? && ((s.open && step.alive) || step.connects)
  }

  // Step `i` closes the socket of the attempt that began at step `e`: an attempt ends that has failed, is not
  // to be kept or has been stopped, the response asks for it, or a stop meets no request.
  ghost predicate Shuts(states: seq<State>, steps: seq<Step>, e: nat, i: nat)
    requires e < i < |steps| < |states|
  {
    match steps[i]
    case Leave(_, ret, closeConnection) => !ret || closeConnection || exists k :: e < k < i && steps[k].Stop?
    case HandlerCloses(_) => true
    case Stop(_) => states[i].inFlight <= 0
    case _ => false
  }

  // The last attempt before `m` began at step `e`, had a socket, and nothing has closed it.
  ghost predicate KeptFrom(states: seq<State>, steps: seq<Step>, e: nat, m: nat) {
    && e < m <= |steps| < |states| && Connects(states[e], steps[e])
    && forall i :: e < i < m ==> !steps[i].Enter? && !Shuts(states, steps, e, i)
  }

  lemma KeptOn(states: seq<State>, steps: seq<Step>, e: nat, k: nat)
    requires IsRun(states, steps) && k < |steps| && KeptFrom(states, steps, e, k) && states[k].open
    ensures states[k + 1].open && !steps[k].Enter? ==> KeptFrom(states, steps, e, k + 1)
  {
    assert Next(states[k], steps[k], states[k + 1]);
    if steps[k].Leave? && states[k + 1].open {
      forall i | e < i < k && steps[i].Stop?
        ensures false
      {
        NoStopSince(states, steps, e, i, k);
      }
    }
  }

  // A stop that closed nothing met a request, and is remembered while no attempt begins.
  lemma NoStopSince(states: seq<State>, steps: seq<Step>, e: nat, i: nat, k: nat)
    requires IsRun(states, steps) && k < |steps| && KeptFrom(states, steps, e, k) && e < i < k && steps[i].Stop?
    ensures states[k].shouldClose
  {
    assert !Shuts(states, steps, e, i);
    assert Standing(states, steps, i, k);
    StopRemembered(states, steps, k);
  }

  lemma NothingRemembered(states: seq<State>, steps: seq<Step>, e: nat, k: nat)
    requires IsRun(states, steps) && e < k < |steps| && KeptFrom(states, steps, e, k + 1) && steps[k].Leave?
    ensures !states[k].shouldClose
  {
    StopRemembered(states, steps, k);
    assert !Shuts(states, steps, e, k);
  }

  lemma KeptBefore(states: seq<State>, steps: seq<Step>, e: nat, k: nat)
    requires IsRun(states, steps) && k < |steps| && KeptFrom(states, steps, e, k + 1) && (e < k ==> states[k].open)
    ensures states[k + 1].open
  {
    assert Next(states[k], steps[k], states[k + 1]);
    if e < k {
      assert !Shuts(states, steps, e, k);
      if steps[k].Leave? {
        NothingRemembered(states, steps, e, k);
      }
    }
  }

  // The socket is open exactly if the last attempt had one and nothing has closed it since.
  lemma {:induction false} OpenExactly(states: seq<State>, steps: seq<Step>, m: nat)
    requires IsRun(states, steps) && m < |states|
    ensures states[m].open <==> exists e: nat :: KeptFrom(states, steps, e, m)
  {
    if m > 0 {
      var k := m - 1;
      OpenExactly(states, steps, k);
      assert Next(states[k], steps[k], states[k + 1]);
      if states[m].open {
        if steps[k].Enter? {
          assert KeptFrom(states, steps, k, m);
        } else {
          var e: nat :| KeptFrom(states, steps, e, k);
          KeptOn(states, steps, e, k);
        }
      }
      if e: nat :| KeptFrom(states, steps, e, m) {
        if e < k {
          assert KeptFrom(states, steps, e, k);
        }
        KeptBefore(states, steps, e, k);
      }
    }
  }

  // While no attempt begins and none of the thread ends, its call stays in flight.
  lemma {:induction false} StillOpen(states: seq<State>, steps: seq<Step>, t: Thread, j: nat, m: nat)
    requires IsRun(states, steps) && j <= m < |states|
    requires Stack(states[j], t) != [] && Last(Stack(states[j], t)).Open?
    requires forall i :: j <= i < m ==> !steps[i].Enter? && !(steps[i].Leave? && steps[i].t == t)
    ensures var before, now := Stack(states[j], t), Stack(states[m], t); now == before || now == before + [Entering(true)]
  {
    if j < m {
      var k := m - 1;
      StillOpen(states, steps, t, j, k);
      assert Next(states[k], steps[k], states[k + 1]);
    }
  }

  lemma NoReturnYet(states: seq<State>, steps: seq<Step>, t: Thread, j: nat, m: nat)
    requires IsRun(states, steps) && j <= m < |steps|
    requires Stack(states[j], t) != [] && Last(Stack(states[j], t)).Open?
    requires forall i :: j <= i < m ==> !steps[i].Enter? && !(steps[i].Leave? && steps[i].t == t)
    ensures steps[m] != Return(t)
  {
    assert Next(states[m], steps[m], states[m + 1]);
    StillOpen(states, steps, t, j, m);
  }

  lemma LeaveBetween(states: seq<State>, steps: seq<Step>, t: Thread, j: nat, m: nat) returns (i: nat)
    requires IsRun(states, steps) && j < m < |steps| && steps[j].Stop?
    requires Stack(states[j], t) != [] && Last(Stack(states[j], t)).Open? && steps[m] == Return(t)
    requires forall i :: j < i < m ==> !steps[i].Enter?
    ensures j < i < m && steps[i].Leave?
  {
    if k :| j <= k < m && steps[k].Leave? {
      i := k;
    } else {
      NoReturnYet(states, steps, t, j, m);
    }
  }

  // An attempt that began before a stop is not kept by a request that was in flight then.
  lemma NotKept(states: seq<State>, steps: seq<Step>, t: Thread, j: nat, m: nat, e: nat)
    requires IsRun(states, steps) && e <= j < m < |steps| && steps[j].Stop?
    requires Stack(states[j], t) != [] && Last(Stack(states[j], t)).Open? && steps[m] == Return(t)
    ensures !KeptFrom(states, steps, e, m + 1)
  {
    if e < j && forall i :: j < i < m ==> !steps[i].Enter? {
      var i := LeaveBetween(states, steps, t, j, m);
      assert Shuts(states, steps, e, i);
    }
  }

  // An attempt that began after step `j` is kept.
  ghost predicate KeptSince(states: seq<State>, steps: seq<Step>, j: nat, m: nat) {
    exists e: nat :: j < e && KeptFrom(states, steps, e, m)
  }

  // When a request that was in flight at a stop returns, the socket is open exactly if an attempt that began
  // after the stop had one and nothing has closed it since.
  lemma StopClosesExactly(states: seq<State>, steps: seq<Step>, t: Thread, j: nat, m: nat)
    requires IsRun(states, steps) && j < m < |steps| && steps[j].Stop?
    requires Stack(states[j], t) != [] && Last(Stack(states[j], t)).Open? && steps[m] == Return(t)
    ensures states[m + 1].open <==> KeptSince(states, steps, j, m + 1)
  {
    var n := m + 1;
    OpenExactly(states, steps, n);
    forall e: nat | e <= j
      ensures !KeptFrom(states, steps, e, n)
    {
      NotKept(states, steps, t, j, m, e);
    }
  }

  // While a thread neither calls `send` nor retries, it begins no attempt, and nobody else does before it
  // has returned from all its calls.
  lemma {:induction false} NobodyEnters(states: seq<State>, steps: seq<Step>, t: Thread, j: nat, m: nat)
    requires IsRun(states, steps) && j <= m < |states|
    requires Stack(states[j], t) != [] && Last(Stack(states[j], t)).Open?
    requires forall i :: j <= i < m ==> steps[i] != CallSend(t) && steps[i] != Retry(t)
    ensures Stack(states[m], t) != [] ==>
              !Last(Stack(states[m], t)).Entering? && forall i :: j <= i < m ==> !steps[i].Enter?
  {
    if j < m {
      var k := m - 1;
      NobodyEnters(states, steps, t, j, k);
      Reachable(states, steps, k);
      assert Next(states[k], steps[k], states[k + 1]);
      if Stack(states[k], t) != [] {
        assert t in states[k].stacks && states[k].owner == Some(t);
        assert StackInv(states[k].stacks[t]);
      }
    }
  }

  // A stop during a request that makes no nested call and is not retried leaves the socket closed when
  // the request returns.
  lemma StopClosesUnnested(states: seq<State>, steps: seq<Step>, t: Thread, j: nat, m: nat)
    requires IsRun(states, steps) && j < m < |steps| && steps[j].Stop?
    requires Stack(states[j], t) != [] && Last(Stack(states[j], t)).Open? && steps[m] == Return(t)
    requires forall i :: j < i < m ==> steps[i] != CallSend(t) && steps[i] != Retry(t)
    ensures !states[m + 1].open
  {
    NobodyEnters(states, steps, t, j, m);
    assert Next(states[m], steps[m], states[m + 1]);
    StopClosesExactly(states, steps, t, j, m);
  }

  /* ----- Attempts of one call ----- */

  // How far a call has come; it never goes back.
  function Stage(f: Frame): nat {
    match f
    case Entering(again) => if again then 0 else 3
    case Open(again) => if again then 1 else 4
    case Finished(again) => if again then 2 else 5
  }

  // From state `k` to state `l` the call at depth `d` has not returned.
  ghost predicate InCall(states: seq<State>, t: Thread, d: nat, k: nat, l: nat) {
    l < |states| && forall i :: k <= i <= l ==> |Stack(states[i], t)| > d
  }

  lemma StageStep(s: State, step: Step, s': State, t: Thread, d: nat)
    requires Next(s, step, s') && |Stack(s, t)| > d && |Stack(s', t)| > d
    ensures Stage(Stack(s, t)[d]) <= Stage(Stack(s', t)[d])
    ensures step.Enter? && step.t == t && |Stack(s, t)| == d + 1 ==>
              Stack(s, t)[d].Entering? && Stage(Stack(s, t)[d]) < Stage(Stack(s', t)[d])
  {
  }

  lemma {:induction false} StageGrows(states: seq<State>, steps: seq<Step>, t: Thread, d: nat, k: nat, l: nat)
    requires IsRun(states, steps) && k <= l && InCall(states, t, d, k, l)
    ensures Stage(Stack(states[k], t)[d]) <= Stage(Stack(states[l], t)[d])
    decreases l
  {
    if k < l {
      StageGrows(states, steps, t, d, k, l - 1);
      assert Next(states[l - 1], steps[l - 1], states[l - 1 + 1]);
      StageStep(states[l - 1], steps[l - 1], states[l], t, d);
    }
  }

  // The call of `t` at depth `d` begins an attempt.
  predicate Begins(states: seq<State>, steps: seq<Step>, t: Thread, d: nat, i: nat) {
    i < |steps| && i < |states| && steps[i].Enter? && steps[i].t == t && |Stack(states[i], t)| == d + 1
  }

  // A call of `send` begins at most two attempts.
  lemma AtMostTwoAttempts(states: seq<State>, steps: seq<Step>, t: Thread, d: nat, i: nat, j: nat, k: nat)
    requires IsRun(states, steps) && i < j < k < |steps| && InCall(states, t, d, i, k)
    requires Begins(states, steps, t, d, i) && Begins(states, steps, t, d, j)
    ensures !Begins(states, steps, t, d, k)
  {
    assert Next(states[i], steps[i], states[i + 1]);
    assert Next(states[j], steps[j], states[j + 1]);
    assert Next(states[k], steps[k], states[k + 1]);
    StageStep(states[i], steps[i], states[i + 1], t, d);
    StageGrows(states, steps, t, d, i + 1, j);
    StageStep(states[j], steps[j], states[j + 1], t, d);
    StageGrows(states, steps, t, d, j + 1, k);
  }

  lemma ExtendRun(states: seq<State>, steps: seq<Step>, step: Step, s': State)
    requires IsRun(states, steps) && Next(states[|states| - 1], step, s')
    ensures IsRun(states + [s'], steps + [step])
  {
    var all, more := states + [s'], steps + [step];
    forall k | 0 <= k < |more|
      ensures Next(all[k], more[k], all[k + 1])
    {
      if k < |steps| {
        assert Next(states[k], steps[k], states[k + 1]);
      }
    }
  }

  // Thread 0 is in a request, is stopped by thread 1, and begins a nested one.
  lemma StoppedAndNested() returns (states: seq<State>, steps: seq<Step>)
    ensures IsRun(states, steps) && Stop(1) in steps
    ensures var last := states[|states| - 1];
            && Stack(last, 0) == [Open(true)] + [Open(true)] && last.owner == Some(0) && last.depth == 2
            && last.open && !last.shouldClose && last.inFlight == 2
  {
    var a := State(map[], None, 0, false, 0, None, false);
    var b := Called(a, []);
    var c := Entered(b, [], true);
    var d := c.(shouldClose := true);
    var e := Called(d, [Open(true)]);
    var f := Entered(e, [Open(true)], true);
    states, steps := [a], [];
    ExtendRun(states, steps, CallSend(0), b);
    states, steps := states + [b], steps + [CallSend(0)];
    ExtendRun(states, steps, Enter(0, false, true), c);
    states, steps := states + [c], steps + [Enter(0, false, true)];
    ExtendRun(states, steps, Stop(1), d);
    states, steps := states + [d], steps + [Stop(1)];
    ExtendRun(states, steps, CallSend(0), e);
    states, steps := states + [e], steps + [CallSend(0)];
    ExtendRun(states, steps, Enter(0, false, true), f);
    states, steps := states + [f], steps + [Enter(0, false, true)];
  }

  // With a nested call the stop is forgotten: thread 0 is stopped by thread 1, follows a
  // redirect on the same client, and ends with nothing in flight and the socket open.
  lemma NestedCallForgetsStop() returns (states: seq<State>, steps: seq<Step>)
    ensures IsRun(states, steps) && Stop(1) in steps
    ensures var last := states[|states| - 1]; last.open && last.inFlight == 0 && last.owner == None
  {
    states, steps := StoppedAndNested();
    var g := Left(states[|states| - 1], [Open(true)], true, true);
    var h := Returned(g, [Open(true)], true);
    var i := Left(h, [], true, true);
    var k := Returned(i, [], true);
    ExtendRun(states, steps, Leave(0, true, false), g);
    states, steps := states + [g], steps + [Leave(0, true, false)];
    ExtendRun(states, steps, Return(0), h);
    states, steps := states + [h], steps + [Return(0)];
    ExtendRun(states, steps, Leave(0, true, false), i);
    states, steps := states + [i], steps + [Leave(0, true, false)];
    ExtendRun(states, steps, Return(0), k);
    states, steps := states + [k], steps + [Return(0)];
  }

  // With a retry too: the stop makes the attempt of thread 0 fail, and the second one connects again.
  lemma RetryForgetsStop() returns (states: seq<State>, steps: seq<Step>)
    ensures IsRun(states, steps) && Stop(1) in steps
    ensures forall i, k :: 0 <= i < k < |steps| && steps[i].CallSend? ==> !steps[k].CallSend?
    ensures var last := states[|states| - 1]; last.open && last.inFlight == 0 && last.owner == None
  {
    var a := State(map[], None, 0, false, 0, None, false);
    var b := Called(a, []);
    var c := Entered(b, [], true);
    var d := c.(shouldClose := true);
    var e := Left(d, [], true, false);
    states, steps := [a], [];
    ExtendRun(states, steps, CallSend(0), b);
    states, steps := states + [b], steps + [CallSend(0)];
    ExtendRun(states, steps, Enter(0, false, true), c);
    states, steps := states + [c], steps + [Enter(0, false, true)];
    ExtendRun(states, steps, Stop(1), d);
    states, steps := states + [d], steps + [Stop(1)];
    ExtendRun(states, steps, Leave(0, false, false), e);
    states, steps := states + [e], steps + [Leave(0, false, false)];
    states, steps := RetriedRun(states, steps);
  }

  lemma RetriedRun(before: seq<State>, taken: seq<Step>) returns (states: seq<State>, steps: seq<Step>)
    requires IsRun(before, taken)
    requires var last := before[|before| - 1]; Stack(last, 0) == [Finished(true)] && last.depth == 1 && last.inFlight == 0
    ensures IsRun(states, steps) && steps == taken + [Retry(0), Enter(0, false, true), Leave(0, true, false), Return(0)]
    ensures var last := states[|states| - 1]; last.open && last.inFlight == 0 && last.owner == None
  {
    var s := before[|before| - 1];
    var f := SetStack(s, 0, [Entering(false)]);
    var g := Entered(f, [], false);
    var h := Left(g, [], false, true);
    var k := Returned(h, [], false);
    ExtendRun(before, taken, Retry(0), f);
    states, steps := before + [f], taken + [Retry(0)];
    ExtendRun(states, steps, Enter(0, false, true), g);
    states, steps := states + [g], steps + [Enter(0, false, true)];
    ExtendRun(states, steps, Leave(0, true, false), h);
    states, steps := states + [h], steps + [Leave(0, true, false)];
    ExtendRun(states, steps, Return(0), k);
    states, steps := states + [k], steps + [Return(0)];
  }

  function Called(s: State, stack: seq<Frame>): (s': State)
    requires MayCall(s, 0) && Stack(s, 0) == stack
    ensures Next(s, CallSend(0), s') && Stack(s', 0) == stack + [Entering(true)] && s'.owner == Some(0) && s'.depth == s.depth + 1
    ensures s'.open == s.open && s'.inFlight == s.inFlight && s'.from == s.from && s'.shouldClose == s.shouldClose
  {
    SetStack(s, 0, stack + [Entering(true)]).(owner := Some(0), depth := s.depth + 1)
  }

  function Entered(s: State, stack: seq<Frame>, again: bool): (s': State)
    requires Stack(s, 0) == stack + [Entering(again)]
    ensures Next(s, Enter(0, false, true), s') && Stack(s', 0) == stack + [Open(again)]
    ensures s'.owner == s.owner && s'.depth == s.depth && s'.open && s'.inFlight == s.inFlight + 1 && !s'.shouldClose
  {
    assert SetLast(stack + [Entering(again)], Open(again)) == stack + [Open(again)];
    SetStack(s, 0, stack + [Open(again)]).(shouldClose := false, open := true, inFlight := s.inFlight + 1, from := Some(0))
  }

  function Left(s: State, stack: seq<Frame>, again: bool, ret: bool): (s': State)
    requires Stack(s, 0) == stack + [Open(again)]
    ensures Next(s, Leave(0, ret, false), s') && Stack(s', 0) == stack + [Finished(again)]
    ensures s'.owner == s.owner && s'.depth == s.depth && s'.inFlight == s.inFlight - 1
    ensures s'.open == (s.open && !s.shouldClose && ret) && s'.shouldClose == s.shouldClose
  {
    assert SetLast(stack + [Open(again)], Finished(again)) == stack + [Finished(again)];
    SetStack(s, 0, stack + [Finished(again)]).(inFlight := s.inFlight - 1,
      from := if s.inFlight - 1 <= 0 then None else s.from, open := s.open && !s.shouldClose && ret)
  }

  function Returned(s: State, stack: seq<Frame>, again: bool): (s': State)
    requires Stack(s, 0) == stack + [Finished(again)] && s.depth > 0
    ensures Next(s, Return(0), s') && Stack(s', 0) == stack && s'.depth == s.depth - 1
    ensures s'.owner == if s.depth == 1 then None else s.owner
    ensures s'.open == s.open && s'.inFlight == s.inFlight && s'.shouldClose == s.shouldClose
  {
    assert (stack + [Finished(again)])[..|stack|] == stack;
    SetStack(s, 0, stack).(depth := s.depth - 1, owner := if s.depth == 1 then None else s.owner)
  }
}
