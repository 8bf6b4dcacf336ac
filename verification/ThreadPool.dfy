/**
 The thread pool as a step relation: workers, any number of producers and the thread that
 shuts the pool down, interleaved in every way.  A step is one action between two points at
 which another thread can run; the mutex and the condition variable are explicit.
 */
module ThreadPool {
  import opened Common

  type Job = nat

  // Where a worker stands in its loop.
  datatype WorkerPc =
    | Top           // about to lock the mutex
    | Holding       // holds the mutex, about to test the wait condition
    | Waiting       // blocked on the condition variable
    | Woken         // notified or woken for no reason, about to lock the mutex again
    | Running(job: Job)
    | Exited

  // Where a producer stands in `enqueue`.
  datatype ProducerPc = Idle | Locked(job: Job) | Pushed

  // Where the thread that calls `shutdown` stands.
  datatype StopperPc = NotCalled | StopLocked | FlagSet | Joining

  datatype Agent = Worker(i: nat) | Producer(p: nat) | Stopper

  // `enqueued`, `taken`, `ran` and `late` record what has happened so far; `late` says that a
  // job was put into the queue after the shutdown flag was set.
  datatype State = State(
    workers: seq<WorkerPc>, producers: map<nat, ProducerPc>, stopper: StopperPc, holder: Option<Agent>,
    jobs: seq<Job>, shutdown: bool,
    enqueued: seq<Job>, taken: seq<Job>, ran: multiset<Job>, late: bool)

  datatype Step =
    | WorkerLocks(i: nat) | WorkerTakes(i: nat) | WorkerExits(i: nat) | WorkerWaits(i: nat)
    | WorkerWakes(i: nat) | WorkerFinishes(i: nat)
    | ProducerLocks(p: nat, job: Job) | ProducerPushes(p: nat) | ProducerNotifies(p: nat, woken: Option<nat>)
    | StopperLocks | StopperSets | StopperNotifies

  predicate Is(s: State, i: nat, pc: WorkerPc) {
    i < |s.workers| && s.workers[i] == pc
  }

  function ProducerAt(s: State, p: nat): ProducerPc {
    if p in s.producers then s.producers[p] else Idle
  }

  function Move(s: State, i: nat, pc: WorkerPc): State
    requires i < |s.workers|
  {
    s.(workers := s.workers[i := pc])
  }

  function WakeAll(ws: seq<WorkerPc>): (r: seq<WorkerPc>)
    ensures |r| == |ws|
  {
    seq(|ws|, k requires 0 <= k < |ws| => if ws[k] == Waiting then Woken else ws[k])
  }

  predicate Init(s: State, n: nat) {
    && |s.workers| == n && (forall i :: 0 <= i < n ==> s.workers[i] == Top)
    && s == State(s.workers, map[], NotCalled, None, [], false, [], [], multiset{}, false)
  }

  predicate Next(s: State, step: Step, s': State) {
    match step
    case WorkerLocks(i) =>
      (Is(s, i, Top) || Is(s, i, Woken)) && s.holder == None && s' == Move(s, i, Holding).(holder := Some(Worker(i)))
    case WorkerTakes(i) =>
      && Is(s, i, Holding) && s.jobs != []
      && s' == Move(s, i, Running(s.jobs[0])).(holder := None, jobs := s.jobs[1..], taken := s.taken + [s.jobs[0]])
    case WorkerExits(i) =>
      Is(s, i, Holding) && s.jobs == [] && s.shutdown && s' == Move(s, i, Exited).(holder := None)
    case WorkerWaits(i) =>
      Is(s, i, Holding) && s.jobs == [] && !s.shutdown && s' == Move(s, i, Waiting).(holder := None)
    case WorkerWakes(i) =>
      Is(s, i, Waiting) && s' == Move(s, i, Woken)
    case WorkerFinishes(i) =>
      && i < |s.workers| && s.workers[i].Running?
      && s' == Move(s, i, Top).(ran := s.ran + multiset{s.workers[i].job})
    case ProducerLocks(p, job) =>
      && ProducerAt(s, p) == Idle && s.holder == None
      && s' == s.(producers := s.producers[p := Locked(job)], holder := Some(Producer(p)))
    case ProducerPushes(p) =>
      && ProducerAt(s, p).Locked?
      && var job := ProducerAt(s, p).job;
         s' == s.(producers := s.producers[p := Pushed], holder := None, jobs := s.jobs + [job],
                  enqueued := s.enqueued + [job], late := s.late || s.shutdown)
    case ProducerNotifies(p, woken) =>
      && ProducerAt(s, p) == Pushed
      && if woken.Some? then
           && Is(s, woken.value, Waiting)
           && s' == Move(s, woken.value, Woken).(producers := s.producers[p := Idle])
         else
           && (forall i :: 0 <= i < |s.workers| ==> s.workers[i] != Waiting)
           && s' == s.(producers := s.producers[p := Idle])
    case StopperLocks =>
      s.stopper == NotCalled && s.holder == None && s' == s.(stopper := StopLocked, holder := Some(Stopper))
    case StopperSets =>
      s.stopper == StopLocked && s' == s.(stopper := FlagSet, holder := None, shutdown := true)
    case StopperNotifies =>
      s.stopper == FlagSet && s' == s.(stopper := Joining, workers := WakeAll(s.workers))
  }

  /* ---------- What every step keeps ---------- */

  function JobOf(pc: WorkerPc): multiset<Job> {
    if pc.Running? then multiset{pc.job} else multiset{}
  }

  // The jobs that workers are running.
  function InProgress(ws: seq<WorkerPc>): multiset<Job> {
    if ws == [] then multiset{} else JobOf(ws[0]) + InProgress(ws[1..])
  }

  // Only the thread that the mutex names is inside a critical section.
  ghost predicate MutexInv(s: State) {
    && (forall i :: 0 <= i < |s.workers| ==> (s.workers[i] == Holding <==> s.holder == Some(Worker(i))))
    && (forall p :: p in s.producers ==> (s.producers[p].Locked? <==> s.holder == Some(Producer(p))))
    && (forall p: nat :: s.holder == Some(Producer(p)) ==> p in s.producers)
    && (forall i: nat :: s.holder == Some(Worker(i)) ==> i < |s.workers|)
    && (s.stopper == StopLocked <==> s.holder == Some(Stopper))
  }

  // Jobs leave the queue in the order in which they came, each once.
  ghost predicate FifoInv(s: State) {
    s.enqueued == s.taken + s.jobs
  }

  ghost predicate RunInv(s: State) {
    multiset(s.taken) == s.ran + InProgress(s.workers)
  }

  // A sum over the workers.
  function Tally(ws: seq<WorkerPc>, f: WorkerPc -> nat): nat {
    if ws == [] then 0 else f(ws[0]) + Tally(ws[1..], f)
  }

  // Whether a worker is on its way to the queue.
  function Coming(pc: WorkerPc): nat {
    if pc == Woken || pc == Holding then 1 else 0
  }

  // The producers that are about to notify a worker.
  function Notifying(producers: map<nat, ProducerPc>): set<nat> {
    set p | p in producers && producers[p] == Pushed
  }

  predicate Asleep(s: State) {
    exists i :: 0 <= i < |s.workers| && s.workers[i] == Waiting
  }

  // While a worker sleeps, every queued job has a worker of its own on its way to the queue or a
  // producer about to notify one.
  ghost predicate WakeupInv(s: State) {
    Asleep(s) ==> |s.jobs| <= Tally(s.workers, Coming) + |Notifying(s.producers)|
  }

  ghost predicate ShutdownInv(s: State) {
    && (s.shutdown <==> s.stopper == FlagSet || s.stopper == Joining)
    && (forall i :: 0 <= i < |s.workers| && s.workers[i] == Exited ==> s.shutdown)
    && (s.stopper == Joining ==> forall i :: 0 <= i < |s.workers| ==> s.workers[i] != Waiting)
    && ((exists i :: 0 <= i < |s.workers| && s.workers[i] == Exited) && !s.late ==> s.jobs == [])
  }

  ghost predicate Inv(s: State) {
    MutexInv(s) && FifoInv(s) && RunInv(s) && WakeupInv(s) && ShutdownInv(s)
  }

  lemma Reassociate(a: multiset<Job>, b: multiset<Job>, c: multiset<Job>)
    ensures a + b + c == a + (b + c)
  {
  }

  lemma {:induction false} TallyMove(ws: seq<WorkerPc>, i: nat, pc: WorkerPc, f: WorkerPc -> nat)
    requires i < |ws|
    ensures Tally(ws[i := pc], f) + f(ws[i]) == Tally(ws, f) + f(pc)
  {
    if i == 0 {
      assert ws[0 := pc][1..] == ws[1..];
    } else {
      assert ws[i := pc][1..] == ws[1..][i - 1 := pc];
      TallyMove(ws[1..], i - 1, pc, f);
    }
  }

  lemma {:induction false} InProgressMove(ws: seq<WorkerPc>, i: nat, pc: WorkerPc)
    requires i < |ws|
    ensures InProgress(ws[i := pc]) + JobOf(ws[i]) == InProgress(ws) + JobOf(pc)
  {
    if i == 0 {
      assert ws[0 := pc][1..] == ws[1..];
    } else {
      var rest := ws[1..];
      assert ws[i := pc][1..] == rest[i - 1 := pc];
      InProgressMove(rest, i - 1, pc);
      Reassociate(JobOf(ws[0]), InProgress(rest[i - 1 := pc]), JobOf(ws[i]));
      Reassociate(JobOf(ws[0]), InProgress(rest), JobOf(pc));
    }
  }

  lemma {:induction false} InProgressWake(ws: seq<WorkerPc>)
    ensures InProgress(WakeAll(ws)) == InProgress(ws)
  {
    if ws != [] {
      InProgressWake(ws[1..]);
      assert WakeAll(ws)[1..] == WakeAll(ws[1..]);
    }
  }

  lemma {:induction false} InProgressNone(ws: seq<WorkerPc>)
    requires forall i :: 0 <= i < |ws| ==> !ws[i].Running?
    ensures InProgress(ws) == multiset{}
  {
    if ws != [] {
      InProgressNone(ws[1..]);
    }
  }

  lemma InitInv(s: State, n: nat)
    requires Init(s, n)
    ensures Inv(s)
  {
    InProgressNone(s.workers);
  }

  lemma MutexStep(s: State, step: Step, s': State)
    requires MutexInv(s) && Next(s, step, s')
    ensures MutexInv(s')
  {
    match step
    case WorkerLocks(_) =>
    case WorkerTakes(_) =>
    case WorkerExits(_) =>
    case WorkerWaits(_) =>
    case ProducerLocks(_, _) =>
    case ProducerPushes(_) =>
    case _ =>
  }

  lemma FifoStep(s: State, step: Step, s': State)
    requires FifoInv(s) && Next(s, step, s')
    ensures FifoInv(s')
  {
    if step.WorkerTakes? {
      assert s.jobs == [s.jobs[0]] + s.jobs[1..];
    }
  }

  // A move that neither begins nor ends a job.
  lemma QuietMove(ws: seq<WorkerPc>, i: nat, pc: WorkerPc)
    requires i < |ws| && !ws[i].Running? && !pc.Running?
    ensures InProgress(ws[i := pc]) == InProgress(ws)
  {
    InProgressMove(ws, i, pc);
    AddNone(InProgress(ws));
    AddNone(InProgress(ws[i := pc]));
  }

  lemma AddNone(m: multiset<Job>)
    ensures m + multiset{} == m
  {
  }

  lemma TakeStep(s: State, i: nat, job: Job)
    requires RunInv(s) && Is(s, i, Holding)
    ensures multiset(s.taken + [job]) == s.ran + InProgress(s.workers[i := Running(job)])
  {
    InProgressMove(s.workers, i, Running(job));
    AddNone(InProgress(s.workers[i := Running(job)]));
    assert multiset(s.taken + [job]) == multiset(s.taken) + multiset{job};
    Reassociate(s.ran, InProgress(s.workers), multiset{job});
  }

  lemma FinishStep(s: State, i: nat)
    requires RunInv(s) && i < |s.workers| && s.workers[i].Running?
    ensures multiset(s.taken) == s.ran + multiset{s.workers[i].job} + InProgress(s.workers[i := Top])
  {
    var job := s.workers[i].job;
    InProgressMove(s.workers, i, Top);
    AddNone(InProgress(s.workers));
    assert InProgress(s.workers) == InProgress(s.workers[i := Top]) + multiset{job};
    assert InProgress(s.workers) == multiset{job} + InProgress(s.workers[i := Top]);
    Reassociate(s.ran, multiset{job}, InProgress(s.workers[i := Top]));
  }

  lemma RunStep(s: State, step: Step, s': State)
    requires RunInv(s) && Next(s, step, s')
    ensures RunInv(s')
  {
    match step
    case WorkerLocks(i) => QuietMove(s.workers, i, Holding);
    case WorkerTakes(i) => TakeStep(s, i, s.jobs[0]);
    case WorkerExits(i) => QuietMove(s.workers, i, Exited);
    case WorkerWaits(i) => QuietMove(s.workers, i, Waiting);
    case WorkerWakes(i) => QuietMove(s.workers, i, Woken);
    case WorkerFinishes(i) => FinishStep(s, i);
    case ProducerNotifies(p, woken) =>
      if woken.Some? {
        QuietMove(s.workers, woken.value, Woken);
      }
    case StopperNotifies => InProgressWake(s.workers);
    case _ =>
  }

  lemma NotifyingGrows(producers: map<nat, ProducerPc>, p: nat)
    requires p !in producers || producers[p] != Pushed
    ensures |Notifying(producers[p := Pushed])| == |Notifying(producers)| + 1
  {
    assert Notifying(producers[p := Pushed]) == Notifying(producers) + {p};
  }

  lemma NotifyingShrinks(producers: map<nat, ProducerPc>, p: nat)
    requires p in producers && producers[p] == Pushed
    ensures |Notifying(producers[p := Idle])| == |Notifying(producers)| - 1
  {
    assert Notifying(producers) == Notifying(producers[p := Idle]) + {p};
  }

  lemma NotifyingSame(producers: map<nat, ProducerPc>, p: nat, job: Job)
    requires p !in producers || producers[p] != Pushed
    ensures Notifying(producers[p := Locked(job)]) == Notifying(producers)
  {
  }

  // Moving a worker to a place other than the condition variable wakes nobody up and puts nobody to sleep.
  lemma StillAsleep(s: State, s': State, i: nat, pc: WorkerPc)
    requires i < |s.workers| && s'.workers == s.workers[i := pc] && pc != Waiting && Asleep(s')
    ensures Asleep(s)
  {
    var k :| 0 <= k < |s'.workers| && s'.workers[k] == Waiting;
    assert s.workers[k] == Waiting;
  }

  lemma WakeupMove(s: State, s': State, i: nat, pc: WorkerPc)
    requires WakeupInv(s) && i < |s.workers| && s'.workers == s.workers[i := pc] && pc != Waiting
    requires |s'.jobs| - |s.jobs| <= Coming(pc) - Coming(s.workers[i]) + |Notifying(s'.producers)| - |Notifying(s.producers)|
    ensures WakeupInv(s')
  {
    TallyMove(s.workers, i, pc, Coming);
    if Asleep(s') {
      StillAsleep(s, s', i, pc);
    }
  }

  lemma WakeupStep(s: State, step: Step, s': State)
    requires WakeupInv(s) && Next(s, step, s')
    ensures WakeupInv(s')
  {
    match step
    case WorkerLocks(i) => WakeupMove(s, s', i, Holding);
    case WorkerTakes(i) => WakeupMove(s, s', i, Running(s.jobs[0]));
    case WorkerExits(i) => assert |s'.jobs| == 0;
    case WorkerWaits(i) => assert |s'.jobs| == 0;
    case WorkerWakes(i) => WakeupMove(s, s', i, Woken);
    case WorkerFinishes(i) => WakeupMove(s, s', i, Top);
    case ProducerLocks(p, job) => NotifyingSame(s.producers, p, job);
    case ProducerPushes(p) => NotifyingGrows(s.producers, p);
    case ProducerNotifies(p, woken) =>
      NotifyingShrinks(s.producers, p);
      if woken.Some? {
        WakeupMove(s, s', woken.value, Woken);
      }
    case _ =>
  }

  lemma ShutdownStep(s: State, step: Step, s': State)
    requires ShutdownInv(s) && Next(s, step, s')
    ensures ShutdownInv(s')
  {
    match step
    case WorkerLocks(i) => ExitedKept(s, s', i);
    case WorkerTakes(i) => ExitedKept(s, s', i);
    case WorkerWaits(i) => ExitedKept(s, s', i);
    case WorkerWakes(i) => ExitedKept(s, s', i);
    case WorkerFinishes(i) => ExitedKept(s, s', i);
    case _ =>
  }

  lemma ExitedKept(s: State, s': State, i: nat)
    requires |s'.workers| == |s.workers| && forall k :: 0 <= k < |s.workers| && k != i ==> s'.workers[k] == s.workers[k]
    ensures (exists k :: 0 <= k < |s'.workers| && k != i && s'.workers[k] == Exited)
            ==> exists k :: 0 <= k < |s.workers| && s.workers[k] == Exited
  {
  }

  lemma StepInv(s: State, step: Step, s': State)
    requires Inv(s) && Next(s, step, s')
    ensures Inv(s')
  {
    MutexStep(s, step, s');
    FifoStep(s, step, s');
    RunStep(s, step, s');
    WakeupStep(s, step, s');
    ShutdownStep(s, step, s');
  }

  /* ---------- Over whole runs ---------- */

  ghost predicate IsRun(states: seq<State>, steps: seq<Step>, n: nat) {
    && |states| == |steps| + 1 && Init(states[0], n)
    && forall k :: 0 <= k < |steps| ==> Next(states[k], steps[k], states[k + 1])
  }

  lemma {:induction false} Reachable(states: seq<State>, steps: seq<Step>, n: nat, k: nat)
    requires IsRun(states, steps, n) && k < |states|
    ensures Inv(states[k])
  {
    if k == 0 {
      InitInv(states[0], n);
    } else {
      Reachable(states, steps, n, k - 1);
      assert Next(states[k - 1], steps[k - 1], states[k - 1 + 1]);
      StepInv(states[k - 1], steps[k - 1], states[k]);
    }
  }

  // Pushes happen before the flag is set.
  ghost predicate NothingLate(states: seq<State>, steps: seq<Step>) {
    |states| == |steps| + 1 && forall k :: 0 <= k < |steps| && steps[k].ProducerPushes? ==> !states[k].shutdown
  }

  lemma {:induction false} NotLate(states: seq<State>, steps: seq<Step>, n: nat, k: nat)
    requires IsRun(states, steps, n) && NothingLate(states, steps) && k < |states|
    ensures !states[k].late
  {
    if k > 0 {
      NotLate(states, steps, n, k - 1);
      assert Next(states[k - 1], steps[k - 1], states[k]);
    }
  }

  // If nothing is enqueued after the shutdown, then once all workers have exited every job
  // that was ever enqueued has been run, exactly as often as it was enqueued.
  lemma AllJobsRun(states: seq<State>, steps: seq<Step>, n: nat, k: nat)
    requires IsRun(states, steps, n) && NothingLate(states, steps) && k < |states| && n > 0
    requires |states[k].workers| == n && forall i :: 0 <= i < n ==> states[k].workers[i] == Exited
    ensures states[k].jobs == [] && states[k].taken == states[k].enqueued
    ensures states[k].ran == multiset(states[k].enqueued)
  {
    Reachable(states, steps, n, k);
    NotLate(states, steps, n, k);
    var s := states[k];
    assert s.workers[0] == Exited;
    InProgressNone(s.workers);
    assert s.taken + [] == s.taken;
  }

  // In every reachable state the jobs taken are a prefix of the jobs enqueued, and no wakeup is lost:
  // while a worker sleeps, there are at least as many workers on their way to the queue and producers
  // about to notify one as there are queued jobs.
  lemma NoLostWakeup(states: seq<State>, steps: seq<Step>, n: nat, k: nat)
    requires IsRun(states, steps, n) && k < |states|
    ensures states[k].taken + states[k].jobs == states[k].enqueued
    ensures Asleep(states[k]) ==> |states[k].jobs| <= Tally(states[k].workers, Coming) + |Notifying(states[k].producers)|
  {
    Reachable(states, steps, n, k);
  }

  // Once the shutting-down thread waits for the workers, one that has not exited can go on, or the
  // thread that keeps it from the mutex can and gives the mutex back.
  lemma JoinNotStuck(states: seq<State>, steps: seq<Step>, n: nat, k: nat, i: nat) returns (step: Step, s': State)
    requires IsRun(states, steps, n) && k < |states| && i < |states[k].workers|
    requires states[k].stopper == Joining && states[k].workers[i] != Exited
    ensures Next(states[k], step, s')
    ensures s'.workers[i] != states[k].workers[i] || (states[k].holder != None && s'.holder == None)
  {
    Reachable(states, steps, n, k);
    var s := states[k];
    if s.workers[i].Running? {
      step, s' := WorkerFinishes(i), Move(s, i, Top).(ran := s.ran + multiset{s.workers[i].job});
    } else if s.holder == None {
      step, s' := WorkerLocks(i), Move(s, i, Holding).(holder := Some(Worker(i)));
    } else {
      step, s' := HolderGoesOn(s);
    }
  }

  lemma HolderGoesOn(s: State) returns (step: Step, s': State)
    requires Inv(s) && s.stopper == Joining && s.holder != None
    ensures Next(s, step, s') && s'.holder == None
  {
    match s.holder.value
    case Worker(i) =>
      if s.jobs == [] {
        step, s' := WorkerExits(i), Move(s, i, Exited).(holder := None);
      } else {
        step := WorkerTakes(i);
        s' := Move(s, i, Running(s.jobs[0])).(holder := None, jobs := s.jobs[1..], taken := s.taken + [s.jobs[0]]);
      }
    case Producer(p) =>
      var job := s.producers[p].job;
      step := ProducerPushes(p);
      s' := s.(producers := s.producers[p := Pushed], holder := None, jobs := s.jobs + [job],
               enqueued := s.enqueued + [job], late := s.late || s.shutdown);
  }

  // The way a worker has still to go before it exits, apart from the jobs it will take.
  function Distance(pc: WorkerPc): nat {
    match pc
    case Running(_) => 3
    case Holding => 1
    case Exited => 0
    case _ => 2
  }

  function Remaining(s: State): nat {
    4 * |s.jobs| + Tally(s.workers, Distance)
  }

  predicate IsProducerStep(step: Step) {
    step.ProducerLocks? || step.ProducerPushes? || step.ProducerNotifies?
  }

  lemma JoinStep(s: State, step: Step, s': State)
    requires Inv(s) && Next(s, step, s') && s.stopper == Joining && !IsProducerStep(step)
    ensures s'.stopper == Joining && Remaining(s') < Remaining(s)
  {
    match step
    case WorkerLocks(i) => TallyMove(s.workers, i, Holding, Distance);
    case WorkerTakes(i) => TallyMove(s.workers, i, Running(s.jobs[0]), Distance);
    case WorkerExits(i) => TallyMove(s.workers, i, Exited, Distance);
    case WorkerFinishes(i) => TallyMove(s.workers, i, Top, Distance);
    case _ =>
  }

  // Once nothing is enqueued any more, the wait for the workers ends: the steps that can still be
  // taken are bounded by the jobs and the workers' places.
  lemma {:induction false} JoinEnds(states: seq<State>, steps: seq<Step>, n: nat, k: nat, m: nat)
    requires IsRun(states, steps, n) && k <= m < |states| && states[k].stopper == Joining
    requires forall j :: k <= j < m ==> !IsProducerStep(steps[j])
    ensures states[m].stopper == Joining && m - k + Remaining(states[m]) <= Remaining(states[k])
    decreases m - k
  {
    if k < m {
      JoinEnds(states, steps, n, k, m - 1);
      JoinStepAt(states, steps, n, m - 1);
    }
  }

  lemma JoinStepAt(states: seq<State>, steps: seq<Step>, n: nat, k: nat)
    requires IsRun(states, steps, n) && k < |steps| && states[k].stopper == Joining && !IsProducerStep(steps[k])
    ensures states[k + 1].stopper == Joining && Remaining(states[k + 1]) < Remaining(states[k])
  {
    Reachable(states, steps, n, k);
    JoinStep(states[k], steps[k], states[k + 1]);
  }
}
