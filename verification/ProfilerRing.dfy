/**
 One thread's ring log and its column of the frame table: entries are put into the ring, and every
 flip replays the window between two frame starts that lie a fixed number of frames back.
 */
module ProfilerRing {
  import opened ProfilerTicks

  const FRAME_HISTORY := 512
  const FRAME_DELAY := 3

  /* ---------- Positions and slots ---------- */

  // The slot of the p-th entry of a ring of n slots.
  function Slot(p: nat, n: nat): (k: nat)
    requires n > 0
    ensures k < n
  {
    if p < n then p else Slot(p - n, n)
  }

  lemma NextIs(k: nat, n: nat)
    requires k < n
    ensures (k + 1) % n == if k + 1 == n then 0 else k + 1
  {
  }

  lemma {:induction false} SlotNext(p: nat, n: nat)
    requires n > 0
    ensures Slot(p + 1, n) == if Slot(p, n) + 1 == n then 0 else Slot(p, n) + 1
    decreases p
  {
    if p >= n {
      SlotNext(p - n, n);
    }
  }

  lemma {:induction false} SlotsDiffer(p: nat, q: nat, n: nat)
    requires n > 0 && p < q < p + n
    ensures Slot(p, n) != Slot(q, n)
    decreases p
  {
    if p >= n {
      SlotsDiffer(p - n, q - n, n);
    }
  }

  lemma {:induction false} FrameSlot(p: nat)
    ensures Slot(p, FRAME_HISTORY) == p % 512
  {
    if p >= 512 {
      FrameSlot(p - 512);
    }
  }

  // The slots of positions p to q - 1.
  function Slots(p: nat, q: nat, n: nat): (s: seq<nat>)
    requires n > 0 && p <= q
    ensures |s| == q - p && forall k :: 0 <= k < |s| ==> s[k] < n
    decreases q - p
  {
    if p == q then [] else [Slot(p, n)] + Slots(p + 1, q, n)
  }

  lemma {:induction false} SlotsAt(p: nat, q: nat, n: nat, k: nat)
    requires n > 0 && p + k < q
    ensures Slots(p, q, n)[k] == Slot(p + k, n)
    decreases k
  {
    if k > 0 {
      SlotsAt(p + 1, q, n, k - 1);
    }
  }

  /* ---------- The cyclic interval ---------- */

  // Walking from `get` to `put` around the ring.
  function Cyclic(get: nat, put: nat, n: nat): (s: seq<nat>)
    requires get < n && put < n
    ensures forall k :: 0 <= k < |s| ==> s[k] < n
    decreases if get <= put then put - get else put + n - get
  {
    if get == put then [] else [get] + Cyclic(if get + 1 == n then 0 else get + 1, put, n)
  }

  function Range(a: nat, b: nat): (s: seq<nat>)
    requires a <= b
  {
    seq(b - a, i requires 0 <= i < b - a => a + i)
  }

  lemma {:induction false} CyclicUp(get: nat, put: nat, n: nat)
    requires get <= put < n
    ensures Cyclic(get, put, n) == Range(get, put)
    decreases put - get
  {
    if get < put {
      CyclicUp(get + 1, put, n);
      assert Range(get, put) == [get] + Range(get + 1, put);
    }
  }

  lemma {:induction false} CyclicAround(get: nat, put: nat, n: nat)
    requires put < get < n
    ensures Cyclic(get, put, n) == Range(get, n) + Range(0, put)
    decreases n - get
  {
    if get + 1 == n {
      CyclicUp(0, put, n);
      assert Range(get, n) == [get];
    } else {
      CyclicAround(get + 1, put, n);
      assert Range(get, n) == [get] + Range(get + 1, n);
    }
  }

  lemma {:induction false} CyclicIsSlots(p: nat, q: nat, n: nat)
    requires n > 0 && p <= q < p + n
    ensures Cyclic(Slot(p, n), Slot(q, n), n) == Slots(p, q, n)
    decreases q - p
  {
    if p < q {
      SlotsDiffer(p, q, n);
      SlotNext(p, n);
      CyclicIsSlots(p + 1, q, n);
    }
  }

  // The two ranges, one after the other, are the cyclic interval.
  method GetRange(put: nat, get: nat, size: nat) returns (start0: nat, end0: nat, start1: nat, end1: nat)
    requires put < size && get < size
    ensures start0 <= end0 <= size && start1 <= end1 <= size
    ensures Range(start0, end0) + Range(start1, end1) == Cyclic(get, put, size)
  {
    start0, end0, start1, end1 := 0, 0, 0, 0;
    if put > get {
      CyclicUp(get, put, size);
      start0, end0 := get, put;
    } else if put != get {
      CyclicAround(get, put, size);
      var countEnd := size - get;
      start0, end0 := get, get + countEnd;
      start1, end1 := 0, put;
    }
  }

  /* ---------- The log and the frame table ---------- */

  datatype Ring = Ring(log: seq<Entry>, put: nat, get: nat, starts: seq<nat>, framePut: nat)

  ghost predicate Shape(r: Ring) {
    && r.put < |r.log| && r.get < |r.log|
    && |r.starts| == FRAME_HISTORY && r.framePut < FRAME_HISTORY
    && forall k :: 0 <= k < FRAME_HISTORY ==> r.starts[k] < |r.log|
  }

  predicate Full(r: Ring)
    requires |r.log| > 0
  {
    (r.put + 1) % |r.log| == r.get
  }

  // An entry that would reach the last flip's position is dropped.
  function Put(r: Ring, e: Entry): (r': Ring)
    requires Shape(r)
    ensures Shape(r')
  {
    if Full(r) then r else r.(log := r.log[r.put := e], put := (r.put + 1) % |r.log|)
  }

  function Flip(r: Ring): (r': Ring)
    requires Shape(r)
    ensures Shape(r')
  {
    var framePut := (r.framePut + 1) % FRAME_HISTORY;
    r.(framePut := framePut, starts := r.starts[framePut := r.put], get := r.put)
  }

  function FrameCurrent(r: Ring): nat {
    (r.framePut + FRAME_HISTORY - FRAME_DELAY - 1) % FRAME_HISTORY
  }

  // The slots that the flip which has just happened replays.
  function Window(r: Ring): seq<nat>
    requires Shape(r)
  {
    Cyclic(r.starts[FrameCurrent(r)], r.starts[(FrameCurrent(r) + 1) % FRAME_HISTORY], |r.log|)
  }

  function Pick(log: seq<Entry>, slots: seq<nat>): (s: seq<Entry>)
    requires forall k :: 0 <= k < |slots| ==> slots[k] < |log|
  {
    seq(|slots|, k requires 0 <= k < |slots| => log[slots[k]])
  }

  /* ---------- Runs ---------- */

  datatype Action = Write(e: Entry) | EndFrame

  // The log with its history: the accepted entries, how many there were at every flip (0 at the
  // start), and what all flips have replayed.
  datatype Run = Run(ring: Ring, accepted: seq<Entry>, marks: seq<nat>, replayed: seq<Entry>)

  function Start(size: nat): Run {
    Run(Ring(seq(size, _ => 0), 0, 0, seq(FRAME_HISTORY, _ => 0), 0), [], [0], [])
  }

  function Do(w: Run, a: Action): (w': Run)
    requires Shape(w.ring)
    ensures Shape(w'.ring)
  {
    match a
    case Write(e) => if Full(w.ring) then w else w.(ring := Put(w.ring, e), accepted := w.accepted + [e])
    case EndFrame =>
      var r := Flip(w.ring);
      Run(r, w.accepted, w.marks + [|w.accepted|], w.replayed + Pick(r.log, Window(r)))
  }

  function RunOf(size: nat, actions: seq<Action>): (w: Run)
    requires size > 0
    ensures Shape(w.ring)
  {
    if actions == [] then Start(size) else Do(RunOf(size, actions[..|actions| - 1]), actions[|actions| - 1])
  }

  /* ---------- What every run keeps ---------- */

  // The ring holds the last entries, each in its slot.
  ghost predicate HoldsLast(log: seq<Entry>, accepted: seq<Entry>) {
    |log| > 0 && forall p: nat :: p < |accepted| <= p + |log| ==> log[Slot(p, |log|)] == accepted[p]
  }

  // A frame's entries never fill the ring.
  ghost predicate Spaced(marks: seq<nat>, total: nat, n: nat) {
    && |marks| > 0 && marks[0] == 0 && marks[|marks| - 1] <= total < marks[|marks| - 1] + n
    && forall i :: 0 <= i < |marks| - 1 ==> marks[i] <= marks[i + 1] < marks[i] + n
  }

  // The frame table holds the slots of the last marks, and zeros where no frame has been.
  ghost predicate Tabled(starts: seq<nat>, marks: seq<nat>, n: nat) {
    && n > 0 && |starts| == FRAME_HISTORY
    && (forall j: nat :: j < |marks| <= j + FRAME_HISTORY ==> starts[Slot(j, FRAME_HISTORY)] == Slot(marks[j], n))
    && forall k: nat :: |marks| <= k < FRAME_HISTORY ==> starts[k] == 0
  }

  ghost predicate Inv(w: Run) {
    var n := |w.ring.log|;
    && Shape(w.ring) && HoldsLast(w.ring.log, w.accepted) && Spaced(w.marks, |w.accepted|, n) && Tabled(w.ring.starts, w.marks, n)
    && w.ring.put == Slot(|w.accepted|, n) && w.ring.get == Slot(w.marks[|w.marks| - 1], n)
    && w.ring.framePut == Slot(|w.marks| - 1, FRAME_HISTORY)
  }

  lemma PutHoldsLast(log: seq<Entry>, accepted: seq<Entry>, e: Entry)
    requires HoldsLast(log, accepted)
    ensures HoldsLast(log[Slot(|accepted|, |log|) := e], accepted + [e])
  {
    var n := |log|;
    forall p: nat | p < |accepted| && |accepted| + 1 <= p + n
      ensures Slot(p, n) != Slot(|accepted|, n)
    {
      SlotsDiffer(p, |accepted|, n);
    }
  }

  // A ring that takes one more entry does not reach the last mark again.
  lemma NotFull(total: nat, mark: nat, n: nat)
    requires n > 0 && mark <= total < mark + n && (Slot(total, n) + 1) % n != Slot(mark, n)
    ensures total + 1 < mark + n && Slot(total + 1, n) == (Slot(total, n) + 1) % n
  {
    NextIs(Slot(total, n), n);
    SlotNext(total, n);
    assert Slot(mark + n, n) == Slot(mark, n);
  }

  lemma FlipTabled(starts: seq<nat>, marks: seq<nat>, total: nat, n: nat)
    requires Tabled(starts, marks, n)
    ensures Tabled(starts[Slot(|marks|, FRAME_HISTORY) := Slot(total, n)], marks + [total], n)
  {
    forall j: nat | j < |marks| && |marks| + 1 <= j + FRAME_HISTORY
      ensures Slot(j, FRAME_HISTORY) != Slot(|marks|, FRAME_HISTORY)
    {
      SlotsDiffer(j, |marks|, FRAME_HISTORY);
    }
  }

  lemma WriteKeeps(w: Run, e: Entry)
    requires Inv(w)
    ensures Inv(Do(w, Write(e)))
  {
    if !Full(w.ring) {
      NotFull(|w.accepted|, w.marks[|w.marks| - 1], |w.ring.log|);
      PutHoldsLast(w.ring.log, w.accepted, e);
    }
  }

  lemma FlipSpaced(marks: seq<nat>, total: nat, n: nat)
    requires Spaced(marks, total, n)
    ensures Spaced(marks + [total], total, n)
  {
  }

  lemma NextFrame(m: nat)
    ensures (Slot(m, FRAME_HISTORY) + 1) % FRAME_HISTORY == Slot(m + 1, FRAME_HISTORY)
  {
    NextIs(Slot(m, FRAME_HISTORY), FRAME_HISTORY);
    SlotNext(m, FRAME_HISTORY);
  }

  lemma EndFrameKeeps(w: Run)
    requires Inv(w)
    ensures Inv(Do(w, EndFrame))
  {
    NextFrame(|w.marks| - 1);
    FlipTabled(w.ring.starts, w.marks, |w.accepted|, |w.ring.log|);
    FlipSpaced(w.marks, |w.accepted|, |w.ring.log|);
    var r := Flip(w.ring);
    assert r.framePut == Slot(|w.marks|, FRAME_HISTORY);
    assert r.starts == w.ring.starts[r.framePut := r.put];
  }

  lemma {:induction false} RunKeeps(size: nat, actions: seq<Action>)
    requires size > 0
    ensures Inv(RunOf(size, actions)) && |RunOf(size, actions).ring.log| == size
  {
    if actions != [] {
      var before, last := actions[..|actions| - 1], actions[|actions| - 1];
      RunKeeps(size, before);
      match last
      case Write(e) => WriteKeeps(RunOf(size, before), e);
      case EndFrame => EndFrameKeeps(RunOf(size, before));
    } else {
      assert Start(size).ring.log == seq(size, _ => 0);
    }
  }

  /* ---------- Which entries are accepted ---------- */

  // A ring is full exactly when one entry less than its size has come since the last flip.
  lemma FullExactly(total: nat, mark: nat, n: nat)
    requires n > 0 && mark <= total < mark + n
    ensures (Slot(total, n) + 1) % n == Slot(mark, n) <==> total + 1 == mark + n
  {
    NextIs(Slot(total, n), n);
    SlotNext(total, n);
    if total + 1 < mark + n {
      SlotsDiffer(mark, total + 1, n);
    } else {
      assert Slot(mark + n, n) == Slot(mark, n);
    }
  }

  lemma TakenExactly(w: Run, size: nat, e: Entry)
    requires Inv(w) && |w.ring.log| == size
    ensures |w.marks| > 0 && w.marks[|w.marks| - 1] <= |w.accepted| < w.marks[|w.marks| - 1] + size
    ensures Do(w, Write(e)).accepted == if |w.accepted| + 1 == w.marks[|w.marks| - 1] + size then w.accepted else w.accepted + [e]
  {
    FullExactly(|w.accepted|, w.marks[|w.marks| - 1], size);
  }

  // In every run a write is dropped if and only if it would be entry number `size` since the last flip, and
  // otherwise it is accepted as it is.
  lemma AcceptedExactly(size: nat, actions: seq<Action>, e: Entry)
    requires size > 0
    ensures var w := RunOf(size, actions);
            && |w.marks| > 0 && w.marks[|w.marks| - 1] <= |w.accepted| < w.marks[|w.marks| - 1] + size
            && Do(w, Write(e)).accepted == if |w.accepted| + 1 == w.marks[|w.marks| - 1] + size then w.accepted else w.accepted + [e]
  {
    RunKeeps(size, actions);
    TakenExactly(RunOf(size, actions), size, e);
  }

  function Writes(es: seq<Entry>): (actions: seq<Action>)
    ensures |actions| == |es|
  {
    seq(|es|, i requires 0 <= i < |es| => Write(es[i]))
  }

  lemma RunNext(size: nat, actions: seq<Action>, a: Action)
    requires size > 0
    ensures RunOf(size, actions + [a]) == Do(RunOf(size, actions), a)
  {
    assert (actions + [a])[..|actions|] == actions;
  }

  // What is left of a frame's entries.
  function FirstOf(es: seq<Entry>, size: nat): seq<Entry>
    requires size > 0
  {
    if |es| < size then es else es[..size - 1]
  }

  // One more entry of a frame.
  lemma FrameNext(w: Run, before: seq<Entry>, init: seq<Entry>, e: Entry, size: nat)
    requires size > 0 && |w.marks| > 0 && w.marks[|w.marks| - 1] == |before| && w.accepted == before + FirstOf(init, size)
    ensures (if |w.accepted| + 1 == |before| + size then w.accepted else w.accepted + [e]) == before + FirstOf(init + [e], size)
  {
    if |init| < size - 1 {
      assert before + init + [e] == before + (init + [e]);
    } else {
      assert (init + [e])[..size - 1] == init[..size - 1];
    }
  }

  // A frame keeps its first `size - 1` entries and loses what comes after.
  lemma {:induction false} FrameKeepsFirst(size: nat, actions: seq<Action>, es: seq<Entry>)
    requires size > 0
    ensures RunOf(size, actions + [EndFrame] + Writes(es)).marks == RunOf(size, actions).marks + [|RunOf(size, actions).accepted|]
    ensures RunOf(size, actions + [EndFrame] + Writes(es)).accepted ==
            RunOf(size, actions).accepted + if |es| < size then es else es[..size - 1]
    decreases |es|
  {
    var begun, before := actions + [EndFrame], RunOf(size, actions).accepted;
    RunNext(size, actions, EndFrame);
    if es == [] {
      assert begun + Writes(es) == begun;
    } else {
      var init, e := es[..|es| - 1], es[|es| - 1];
      FrameKeepsFirst(size, actions, init);
      WritesNext(begun, init, e, es);
      RunNext(size, begun + Writes(init), Write(e));
      AcceptedExactly(size, begun + Writes(init), e);
      FrameNext(RunOf(size, begun + Writes(init)), before, init, e, size);
    }
  }

  lemma WritesNext(begun: seq<Action>, init: seq<Entry>, e: Entry, es: seq<Entry>)
    requires es != [] && init == es[..|es| - 1] && e == es[|es| - 1]
    ensures begun + Writes(es) == begun + Writes(init) + [Write(e)] && es == init + [e]
  {
    assert Writes(es) == Writes(init) + [Write(e)];
  }

  /* ---------- The windows ---------- */

  // The frame table entries that the m-th flip reads.
  lemma FramesRead(r: Ring, m: nat)
    requires r.framePut == Slot(m, FRAME_HISTORY)
    ensures FrameCurrent(r) == Slot(m + 508, FRAME_HISTORY)
    ensures (FrameCurrent(r) + 1) % FRAME_HISTORY == Slot(m + 509, FRAME_HISTORY)
  {
    FrameSlot(m);
    FrameSlot(m + 508);
    FrameBack(m);
    NextFrame(m + 508);
  }

  lemma FrameBack(m: nat)
    ensures (m % 512 + 512 - 3 - 1) % 512 == (m + 508) % 512
  {
    assert m == 512 * (m / 512) + m % 512;
  }

  // The entries between the fourth-last and the third-last flip before the current one; the first
  // three flips have none.
  function First(marks: seq<nat>): nat {
    if |marks| >= 5 then marks[|marks| - 5] else 0
  }

  function Last(marks: seq<nat>): nat {
    if |marks| >= 4 then marks[|marks| - 4] else 0
  }

  lemma TableRead(starts: seq<nat>, marks: seq<nat>, n: nat)
    requires Tabled(starts, marks, n) && |marks| > 0 && marks[0] == 0
    ensures starts[Slot(|marks| - 1 + 508, FRAME_HISTORY)] == Slot(First(marks), n)
    ensures starts[Slot(|marks| - 1 + 509, FRAME_HISTORY)] == Slot(Last(marks), n)
  {
    var m := |marks| - 1;
    if m >= 4 {
      assert Slot(m + 508, FRAME_HISTORY) == Slot(m - 4, FRAME_HISTORY);
    } else {
      assert Slot(m + 508, FRAME_HISTORY) == m + 508;
    }
    if m >= 3 {
      assert Slot(m + 509, FRAME_HISTORY) == Slot(m - 3, FRAME_HISTORY);
    } else {
      assert Slot(m + 509, FRAME_HISTORY) == m + 509;
    }
  }

  lemma WindowMarks(marks: seq<nat>, total: nat, n: nat)
    requires Spaced(marks, total, n)
    ensures First(marks) <= Last(marks) < First(marks) + n && Last(marks) <= total
  {
    if |marks| >= 4 {
      var k := |marks| - 4;
      assert marks[k] <= marks[k + 1] <= marks[k + 2] <= marks[k + 3];
      if k > 0 {
        assert marks[k - 1] <= marks[k];
      }
    }
  }

  // A flip replays the slots of exactly the entries accepted between two flips.
  lemma WindowIs(w: Run)
    requires Inv(w)
    ensures First(w.marks) <= Last(w.marks) <= |w.accepted|
    ensures Window(w.ring) == Slots(First(w.marks), Last(w.marks), |w.ring.log|)
  {
    FramesRead(w.ring, |w.marks| - 1);
    TableRead(w.ring.starts, w.marks, |w.ring.log|);
    WindowMarks(w.marks, |w.accepted|, |w.ring.log|);
    CyclicIsSlots(First(w.marks), Last(w.marks), |w.ring.log|);
  }

  // The newest position in the slot of position `p`.
  function Latest(p: nat, total: nat, n: nat): (q: nat)
    requires p < total && n > 0
    ensures p <= q < total <= q + n
    decreases total - p
  {
    if total <= p + n then p else Latest(p + n, total, n)
  }

  lemma {:induction false} SlotOfLatest(p: nat, total: nat, n: nat)
    requires p < total && n > 0
    ensures Slot(Latest(p, total, n), n) == Slot(p, n)
    decreases total - p
  {
    if total > p + n {
      SlotOfLatest(p + n, total, n);
    }
  }

  // What is read from the slots of a stretch of positions: the newest entries in those slots.
  lemma PickIs(log: seq<Entry>, accepted: seq<Entry>, p: nat, q: nat, k: nat)
    requires HoldsLast(log, accepted) && p + k < q <= |accepted|
    ensures Pick(log, Slots(p, q, |log|))[k] == accepted[Latest(p + k, |accepted|, |log|)]
  {
    SlotsAt(p, q, |log|, k);
    SlotOfLatest(p + k, |accepted|, |log|);
  }

  // A stretch is read back unaltered if the ring has not gone around past its beginning.
  lemma PickIntact(log: seq<Entry>, accepted: seq<Entry>, p: nat, q: nat)
    requires HoldsLast(log, accepted) && p <= q <= |accepted| <= p + |log|
    ensures Pick(log, Slots(p, q, |log|)) == accepted[p..q]
  {
    var s := Pick(log, Slots(p, q, |log|));
    forall k | 0 <= k < |s|
      ensures s[k] == accepted[p..q][k]
    {
      PickIs(log, accepted, p, q, k);
    }
  }

  // For entries that all differ this is the exact condition: an empty stretch, or a ring that has
  // not gone around.
  lemma IntactExactly(log: seq<Entry>, accepted: seq<Entry>, p: nat, q: nat)
    requires HoldsLast(log, accepted) && p <= q <= |accepted|
    requires forall i, j :: 0 <= i < j < |accepted| ==> accepted[i] != accepted[j]
    ensures Pick(log, Slots(p, q, |log|)) == accepted[p..q] <==> p == q || |accepted| <= p + |log|
  {
    if |accepted| <= p + |log| {
      PickIntact(log, accepted, p, q);
    } else if p < q {
      PickIs(log, accepted, p, q, 0);
      assert accepted[p..q][0] == accepted[p];
      assert accepted[Latest(p, |accepted|, |log|)] != accepted[p];
    }
  }

  /* ---------- Tiling ---------- */

  // At the last flip the frames from the window's first entry on held no more than the ring.
  ghost predicate Spanned(w: Run) {
    |w.accepted| <= First(w.marks) + |w.ring.log|
  }

  ghost predicate AlwaysSpanned(size: nat, actions: seq<Action>)
    requires size > 0
  {
    actions == [] || (AlwaysSpanned(size, actions[..|actions| - 1]) &&
                      (actions[|actions| - 1].EndFrame? ==> Spanned(RunOf(size, actions))))
  }

  ghost predicate Tiled(w: Run) {
    Last(w.marks) <= |w.accepted| && w.replayed == w.accepted[..Last(w.marks)]
  }

  lemma WriteTiles(w: Run, e: Entry)
    requires Shape(w.ring) && Tiled(w)
    ensures Tiled(Do(w, Write(e)))
  {
  }

  lemma EndFrameTiles(w: Run)
    requires Inv(w) && Tiled(w) && Spanned(Do(w, EndFrame))
    ensures Tiled(Do(w, EndFrame))
  {
    var w' := Do(w, EndFrame);
    EndFrameKeeps(w);
    WindowIs(w');
    assert First(w'.marks) == Last(w.marks);
    PickIntact(w'.ring.log, w.accepted, Last(w.marks), Last(w'.marks));
    assert w.accepted[..Last(w.marks)] + w.accepted[Last(w.marks)..Last(w'.marks)] == w.accepted[..Last(w'.marks)];
  }

  // The windows tile the log: together the flips have replayed every entry accepted up to the
  // third-last flip, once, unaltered and in the order of writing.
  lemma {:induction false} WindowsTile(size: nat, actions: seq<Action>)
    requires size > 0 && AlwaysSpanned(size, actions)
    ensures var w := RunOf(size, actions);
            Last(w.marks) <= |w.accepted| && w.replayed == w.accepted[..Last(w.marks)]
  {
    if actions != [] {
      var before, last := actions[..|actions| - 1], actions[|actions| - 1];
      WindowsTile(size, before);
      RunKeeps(size, before);
      match last
      case Write(e) => WriteTiles(RunOf(size, before), e);
      case EndFrame => EndFrameTiles(RunOf(size, before));
    }
  }

  /* ---------- The log of the source ---------- */

  class ThreadLog {
    const Log: array<Entry>
    var nPut: nat
    var nGet: nat
    const nLogStart: array<nat>
    var nFramePut: nat

    ghost predicate Valid()
      reads this, Log, nLogStart
    {
      (Log as object) != nLogStart && nLogStart.Length == FRAME_HISTORY && Shape(View())
    }

    ghost function View(): Ring
      reads this, Log, nLogStart
    {
      Ring(Log[..], nPut, nGet, nLogStart[..], nFramePut)
    }

    constructor (size: nat)
      requires size > 0
      ensures Valid() && View() == Start(size).ring && fresh(Log) && fresh(nLogStart)
    {
      Log := new Entry[size](_ => 0);
      nLogStart := new nat[512](_ => 0);
      nPut, nGet, nFramePut := 0, 0, 0;
      new;
      assert Log[..] == seq(size, _ => 0);
      assert nLogStart[..] == seq(FRAME_HISTORY, _ => 0);
    }

    method LogPut(token: nat, tick: int, begin: nat) returns (overflow: bool)
      requires Valid() && begin < 4
      modifies this, Log
      ensures Valid() && View() == Put(old(View()), MakeLogIndex(begin, token, tick)) && overflow == Full(old(View()))
    {
      var nextPos := (nPut + 1) % Log.Length;
      overflow := nextPos == nGet;
      if !overflow {
        ghost var log := Log[..];
        Log[nPut] := MakeLogIndex(begin, token, tick);
        assert Log[..] == log[nPut := MakeLogIndex(begin, token, tick)];
        nPut := nextPos;
      }
    }

    // The part of a flip that moves the frame on and chooses what is replayed.
    method FlipFrame() returns (start0: nat, end0: nat, start1: nat, end1: nat)
      requires Valid()
      modifies this, nLogStart
      ensures Valid() && View() == Flip(old(View()))
      ensures start0 <= end0 <= Log.Length && start1 <= end1 <= Log.Length
      ensures Range(start0, end0) + Range(start1, end1) == Window(View())
    {
      ghost var starts := nLogStart[..];
      nFramePut := (nFramePut + 1) % FRAME_HISTORY;
      nLogStart[nFramePut] := nPut;
      nGet := nPut;
      assert nLogStart[..] == starts[nFramePut := nPut];
      var current := (nFramePut + FRAME_HISTORY - FRAME_DELAY - 1) % FRAME_HISTORY;
      var next := (current + 1) % FRAME_HISTORY;
      start0, end0, start1, end1 := GetRange(nLogStart[next], nLogStart[current], Log.Length);
    }
  }
}
