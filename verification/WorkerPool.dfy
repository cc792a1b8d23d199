/**
 The bounded pool of single-task workers, one step per mutex section, until its destruction.
 */
module WorkerPool {
  import opened Sequences
  import opened Wrappers

  // -------------------------------------------------------------------------------------
  // A worker
  // -------------------------------------------------------------------------------------

  /** What a worker's mutex protects. */
  datatype Slot<T> = Slot(task: Option<T>, stopped: bool)

  datatype Enqueued = Accepted | OnStopped | OnBusy

  function Filled<T>(s: Slot<T>, task: T): (Slot<T>, Enqueued) {
    if s.stopped then (s, OnStopped)
    else if s.task.Some? then (s, OnBusy)
    else (s.(task := Some(task)), Accepted)
  }

  class Worker<T> {
    var task: Option<T>
    var stopped: bool

    ghost function Abs(): Slot<T>
      reads this
    {
      Slot(task, stopped)
    }

    constructor ()
      ensures Abs() == Slot(None, false)
    {
      task, stopped := None, false;
    }

    method Enqueue(t: T) returns (r: Enqueued)
      modifies this
      ensures (Abs(), r) == Filled(old(Abs()), t)
    {
      if stopped {
        return OnStopped;
      }
      if task.Some? {
        return OnBusy;
      }
      task := Some(t);
      return Accepted;
    }

    /** The loop's mutex section after the wait; None ends the thread. */
    method Take() returns (r: Option<T>)
      requires stopped || task.Some?
      modifies this
      ensures r == old(task) && task == None && stopped == old(stopped)
    {
      if stopped && task.None? {
        return None;
      }
      r := task;
      task := None;
    }
  }

  // -------------------------------------------------------------------------------------
  // The pool's lists
  // -------------------------------------------------------------------------------------

  datatype Lists<W> = Lists(free: seq<W>, busy: seq<W>, max: nat)

  /** std::list::remove. */
  function Remove<W(==)>(ws: seq<W>, w: W): seq<W> {
    if ws == [] then []
    else if ws[0] == w then Remove(ws[1..], w)
    else [ws[0]] + Remove(ws[1..], w)
  }

  /** The free worker that was returned last becomes busy. */
  function Extract<W>(l: Lists<W>): Lists<W>
    requires l.free != []
  {
    var n := |l.free| - 1;
    l.(free := l.free[..n], busy := l.busy + [l.free[n]])
  }

  function Last<W>(l: Lists<W>): W
    requires l.free != []
  {
    l.free[|l.free| - 1]
  }

  function Create<W>(l: Lists<W>, w: W): Lists<W> {
    l.(busy := l.busy + [w])
  }

  function GiveBack<W(==)>(l: Lists<W>, w: W): Lists<W> {
    l.(busy := Remove(l.busy, w), free := l.free + [w])
  }

  /** Free and busy workers are disjoint, listed once, and at most max in all. */
  ghost predicate WellListed<W(!new)>(l: Lists<W>) {
    && Distinct(l.free) && Distinct(l.busy)
    && (forall w :: w in l.free ==> w !in l.busy)
    && |l.free| + |l.busy| <= l.max
  }

  lemma {:induction false} RemoveMembers<W>(ws: seq<W>, w: W, x: W)
    ensures x in Remove(ws, w) <==> x in ws && x != w
  {
    if ws != [] {
      RemoveMembers(ws[1..], w, x);
      assert ws == [ws[0]] + ws[1..];
    }
  }

  lemma {:induction false} RemoveAbsent<W>(ws: seq<W>, w: W)
    requires w !in ws
    ensures Remove(ws, w) == ws
  {
    if ws != [] {
      RemoveAbsent(ws[1..], w);
    }
  }

  lemma {:induction false} RemoveDistinct<W>(ws: seq<W>, w: W)
    requires Distinct(ws)
    ensures Distinct(Remove(ws, w)) && |Remove(ws, w)| == if w in ws then |ws| - 1 else |ws|
  {
    if ws != [] {
      RemoveDistinct(ws[1..], w);
      assert ws[0] !in ws[1..];
      if ws[0] == w {
        RemoveAbsent(ws[1..], w);
      } else {
        RemoveMembers(ws[1..], w, ws[0]);
        assert ws == [ws[0]] + ws[1..];
      }
    }
  }

  lemma ExtractListed<W(!new)>(l: Lists<W>)
    requires WellListed(l) && l.free != []
    ensures WellListed(Extract(l)) && Last(l) in Extract(l).busy && Last(l) !in l.busy
    ensures forall w :: w in Extract(l).busy <==> w in l.busy || w == Last(l)
    ensures forall w :: w in Extract(l).free <==> w in l.free && w != Last(l)
  {
    var n := |l.free| - 1;
    assert l.free == l.free[..n] + [l.free[n]];
    assert Last(l) in l.free;
  }

  lemma CreateListed<W(!new)>(l: Lists<W>, w: W)
    requires WellListed(l) && w !in l.free && w !in l.busy && |l.free| + |l.busy| < l.max
    ensures WellListed(Create(l, w))
  {
  }

  lemma GiveBackListed<W(!new)>(l: Lists<W>, w: W)
    requires WellListed(l) && w in l.busy
    ensures WellListed(GiveBack(l, w))
    ensures forall x :: x in GiveBack(l, w).busy <==> x in l.busy && x != w
    ensures forall x :: x in GiveBack(l, w).free <==> x in l.free || x == w
    ensures |GiveBack(l, w).free| + |GiveBack(l, w).busy| == |l.free| + |l.busy|
  {
    RemoveDistinct(l.busy, w);
    forall x ensures x in Remove(l.busy, w) <==> x in l.busy && x != w {
      RemoveMembers(l.busy, w, x);
    }
  }

  class WorkerPool<T> {
    var workers: seq<Worker<T>>
    var busyWorkers: seq<Worker<T>>
    const maxSize: nat

    ghost function Abs(): Lists<Worker<T>>
      reads this
    {
      Lists(workers, busyWorkers, maxSize)
    }

    constructor (size: nat)
      ensures Abs() == Lists([], [], size)
    {
      workers, busyWorkers, maxSize := [], [], size;
    }

    method ExtractFree() returns (w: Worker<T>)
      requires workers != []
      modifies this
      ensures w == Last(old(Abs())) && Abs() == Extract(old(Abs()))
    {
      w := workers[|workers| - 1];
      workers := workers[..|workers| - 1];
      busyWorkers := busyWorkers + [w];
    }

    method CreateWorker() returns (w: Worker<T>)
      modifies this
      ensures fresh(w) && w.Abs() == Slot(None, false) && Abs() == Create(old(Abs()), w)
    {
      w := new Worker();
      busyWorkers := busyWorkers + [w];
    }

    /** Up to the wait: null stands for a caller that has to wait for a free worker. */
    method GetFreeWorker() returns (w: Worker?<T>)
      modifies this
      ensures old(workers) != [] ==> w == Last(old(Abs())) && Abs() == Extract(old(Abs()))
      ensures old(workers) == [] && |old(busyWorkers)| < maxSize ==>
        w != null && fresh(w) && w.Abs() == Slot(None, false) && Abs() == Create(old(Abs()), w)
      ensures w == null <==> old(workers) == [] && |old(busyWorkers)| >= maxSize
      ensures w == null ==> Abs() == old(Abs())
    {
      if workers != [] {
        w := ExtractFree();
        return;
      }
      if |busyWorkers| < maxSize {
        w := CreateWorker();
        return;
      }
      return null;
    }

    method ReturnWorker(w: Worker<T>)
      modifies this
      ensures Abs() == GiveBack(old(Abs()), w)
    {
      var left := [];
      for i := 0 to |busyWorkers|
        invariant busyWorkers == old(busyWorkers) && workers == old(workers)
        invariant left + Remove(busyWorkers[i..], w) == Remove(busyWorkers, w)
      {
        assert busyWorkers[i..][1..] == busyWorkers[i + 1..];
        if busyWorkers[i] != w {
          left := left + [busyWorkers[i]];
        }
      }
      busyWorkers := left;
      workers := workers + [w];
    }
  }

  /** What try_consume does: Waits stands for a caller that has to wait for a free worker, Thrown for an exception. */
  datatype Attempt = Consumed | NoMessage | Waits | Thrown(refusal: Enqueued)

  /** try_consume: take a worker, then give it a task when there is a message, or give it back. */
  method TryConsume<T>(pool: WorkerPool<T>, message: Option<T>) returns (r: Attempt, w: Worker?<T>)
    modifies pool, pool.workers
    ensures r == Waits <==> old(pool.workers) == [] && |old(pool.busyWorkers)| >= pool.maxSize
    ensures r == Waits <==> w == null
    ensures r == Waits ==> pool.Abs() == old(pool.Abs())
    ensures w != null ==>
      var taken := if old(pool.workers) != [] then Extract(old(pool.Abs())) else Create(old(pool.Abs()), w);
      pool.Abs() == if message.None? then GiveBack(taken, w) else taken
    ensures w != null && old(pool.workers) != [] ==> w == Last(old(pool.Abs()))
    ensures w != null && old(pool.workers) != [] && message.Some? ==>
      var (slot, e) := Filled(old(Last(pool.Abs()).Abs()), message.value);
      w.Abs() == slot && r == if e == Accepted then Consumed else Thrown(e)
    ensures w != null && old(pool.workers) == [] ==> fresh(w) && w.Abs() == Slot(message, false) && !r.Thrown?
    ensures w != null ==> (r == NoMessage <==> message.None?)
  {
    var got := pool.GetFreeWorker();
    if got == null {
      return Waits, null;
    }
    w := got;
    if message.None? {
      pool.ReturnWorker(w);
      return NoMessage, w;
    }
    var e := w.Enqueue(message.value);
    return if e == Accepted then Consumed else Thrown(e), w;
  }

  // -------------------------------------------------------------------------------------
  // All schedules
  // -------------------------------------------------------------------------------------

  /** Where a worker's thread is: at its wait, running a task, or about to return the worker. */
  datatype Phase<T> = Ready | Running(task: T) | Completing

  datatype WorkerState<T> = WorkerState(slot: Slot<T>, phase: Phase<T>)

  datatype Caller = Idle | Waiting | Holding(worker: nat)

  /** Workers are numbered in the order of their creation. */
  datatype State<T> = State(lists: Lists<nat>, workers: seq<WorkerState<T>>, callers: seq<Caller>)

  /** Steps of callers, then steps of worker threads. Abandon: an exception loses the worker. */
  datatype Step<T> =
    | Get(caller: nat) | Wake(caller: nat) | Return(caller: nat) | Enqueue(caller: nat, task: T) | Abandon(caller: nat)
    | Take(worker: nat) | Finish(worker: nat) | Complete(worker: nat)

  predicate ByWorker<T>(step: Step<T>) {
    step.Take? || step.Finish? || step.Complete?
  }

  predicate Enabled<T>(s: State<T>, step: Step<T>) {
    if ByWorker(step) then
      var w := step.worker;
      w < |s.workers| &&
      match step
      case Take(_) => s.workers[w].phase.Ready? && s.workers[w].slot.task.Some?
      case Finish(_) => s.workers[w].phase.Running?
      case _ => s.workers[w].phase.Completing?
    else
      var c := step.caller;
      c < |s.callers| &&
      match step
      case Get(_) => s.callers[c].Idle?
      case Wake(_) => s.callers[c].Waiting? && s.lists.free != []
      case _ => s.callers[c].Holding? && s.callers[c].worker < |s.workers|
  }

  function NewWorker<T>(): WorkerState<T> {
    WorkerState(Slot(None, false), Ready)
  }

  function Do<T>(s: State<T>, step: Step<T>): State<T>
    requires Enabled(s, step)
  {
    match step
    case Get(c) =>
      if s.lists.free != [] then
        s.(lists := Extract(s.lists), callers := s.callers[c := Holding(Last(s.lists))])
      else if |s.lists.busy| < s.lists.max then
        s.(lists := Create(s.lists, |s.workers|), workers := s.workers + [NewWorker()],
           callers := s.callers[c := Holding(|s.workers|)])
      else s.(callers := s.callers[c := Waiting])
    case Wake(c) => s.(lists := Extract(s.lists), callers := s.callers[c := Holding(Last(s.lists))])
    case Return(c) => s.(lists := GiveBack(s.lists, s.callers[c].worker), callers := s.callers[c := Idle])
    case Enqueue(c, task) =>
      var w := s.callers[c].worker;
      s.(workers := s.workers[w := s.workers[w].(slot := Filled(s.workers[w].slot, task).0)],
         callers := s.callers[c := Idle])
    case Abandon(c) => s.(callers := s.callers[c := Idle])
    case Take(w) =>
      var x := s.workers[w];
      s.(workers := s.workers[w := WorkerState(x.slot.(task := None), Running(x.slot.task.value))])
    case Finish(w) => s.(workers := s.workers[w := s.workers[w].(phase := Completing)])
    case Complete(w) =>
      s.(lists := GiveBack(s.lists, w), workers := s.workers[w := s.workers[w].(phase := Ready)])
  }

  ghost predicate Run<T>(s: State<T>, steps: seq<Step<T>>, t: State<T>)
    decreases |steps|
  {
    if steps == [] then s == t
    else Enabled(s, steps[0]) && Run(Do(s, steps[0]), steps[1..], t)
  }

  ghost predicate Initial<T>(s: State<T>) {
    && s.lists.free == s.lists.busy == [] && s.workers == []
    && forall c :: 0 <= c < |s.callers| ==> s.callers[c].Idle?
  }

  /** A worker with nothing to do. */
  predicate AtRest<T>(x: WorkerState<T>) {
    x.slot.task.None? && !x.slot.stopped && x.phase.Ready?
  }

  predicate Holds(callers: seq<Caller>, c: nat, w: nat) {
    c < |callers| && callers[c] == Holding(w)
  }

  ghost predicate Listed<T>(s: State<T>) {
    && WellListed(s.lists)
    && (forall w :: w in s.lists.free || w in s.lists.busy <==> 0 <= w < |s.workers|)
  }

  /** A worker at work is busy, and never has another task waiting. */
  ghost predicate WorkersKnown<T>(s: State<T>) {
    forall w :: 0 <= w < |s.workers| ==>
      && !s.workers[w].slot.stopped
      && (!AtRest(s.workers[w]) ==> w in s.lists.busy)
      && (s.workers[w].slot.task.Some? ==> s.workers[w].phase.Ready?)
  }

  /** A worker held by a caller is busy for the pool, and at rest. */
  predicate GivenOut<T>(s: State<T>, w: nat) {
    w in s.lists.busy && w < |s.workers| && AtRest(s.workers[w])
  }

  /** A worker that is given out is busy for the pool and at rest, and nobody else has it. */
  ghost predicate CallersKnown<T>(s: State<T>) {
    && (forall c: nat, w: nat :: Holds(s.callers, c, w) ==> GivenOut(s, w))
    && (forall c: nat, d: nat, w: nat :: Holds(s.callers, c, w) && Holds(s.callers, d, w) ==> c == d)
  }

  /** Who waits found the pool full. */
  ghost predicate WaitingKnown<T>(s: State<T>) {
    forall c :: 0 <= c < |s.callers| && s.callers[c].Waiting? ==> |s.lists.free| + |s.lists.busy| == s.lists.max
  }

  ghost predicate Safe<T>(s: State<T>) {
    Listed(s) && WorkersKnown(s) && CallersKnown(s) && WaitingKnown(s)
  }

  /** One caller changes, the others keep their workers. */
  lemma CallersAfter<T>(s: State<T>, t: State<T>, c: nat, x: Caller)
    requires CallersKnown(s) && c < |s.callers| && t.callers == s.callers[c := x]
    requires forall d: nat, w: nat :: d != c && Holds(s.callers, d, w) ==> GivenOut(t, w)
    requires x.Holding? ==> GivenOut(t, x.worker) && forall d: nat :: d != c ==> !Holds(s.callers, d, x.worker)
    ensures CallersKnown(t)
  {
    forall d: nat, w: nat | Holds(t.callers, d, w) ensures GivenOut(t, w) {
      assert d != c ==> Holds(s.callers, d, w);
    }
    forall d: nat, e: nat, w: nat | Holds(t.callers, d, w) && Holds(t.callers, e, w) ensures d == e {
      assert d != c ==> Holds(s.callers, d, w);
      assert e != c ==> Holds(s.callers, e, w);
    }
  }

  lemma ExtractSafe<T>(s: State<T>, c: nat)
    requires Safe(s) && c < |s.callers| && !s.callers[c].Holding? && s.lists.free != []
    ensures Safe(s.(lists := Extract(s.lists), callers := s.callers[c := Holding(Last(s.lists))]))
  {
    ExtractListed(s.lists);
    assert Last(s.lists) in s.lists.free;
    var x := Holding(Last(s.lists));
    CallersAfter(s, s.(lists := Extract(s.lists), callers := s.callers[c := x]), c, x);
  }

  lemma CreateSafe<T>(s: State<T>, c: nat)
    requires Safe(s) && c < |s.callers| && s.callers[c].Idle? && s.lists.free == [] && |s.lists.busy| < s.lists.max
    ensures Safe(Do(s, Get(c)))
  {
    CreateListed(s.lists, |s.workers|);
    CallersAfter(s, Do(s, Get(c)), c, Holding(|s.workers|));
  }

  lemma GiveBackSafe<T>(s: State<T>, c: nat)
    requires Safe(s) && Enabled(s, Return(c))
    ensures Safe(Do(s, Return(c)))
  {
    var w := s.callers[c].worker;
    assert Holds(s.callers, c, w);
    GiveBackListed(s.lists, w);
    CallersAfter(s, Do(s, Return(c)), c, Idle);
  }

  /** The worker's slot is empty: "enqueue on busy worker" is never thrown. */
  lemma EnqueueAccepted<T>(s: State<T>, c: nat, task: T)
    requires Safe(s) && Enabled(s, Enqueue(c, task))
    ensures Filled(s.workers[s.callers[c].worker].slot, task).1 == Accepted
  {
    assert Holds(s.callers, c, s.callers[c].worker);
  }

  lemma EnqueueSafe<T>(s: State<T>, c: nat, task: T)
    requires Safe(s) && Enabled(s, Enqueue(c, task))
    ensures Safe(Do(s, Enqueue(c, task)))
  {
    assert Holds(s.callers, c, s.callers[c].worker);
    CallersAfter(s, Do(s, Enqueue(c, task)), c, Idle);
  }

  lemma CompleteSafe<T>(s: State<T>, w: nat)
    requires Safe(s) && Enabled(s, Complete(w))
    ensures Safe(Do(s, Complete(w)))
  {
    GiveBackListed(s.lists, w);
  }

  lemma StepSafe<T>(s: State<T>, step: Step<T>)
    requires Safe(s) && Enabled(s, step)
    ensures Safe(Do(s, step))
  {
    match step
    case Get(c) =>
      if s.lists.free != [] {
        ExtractSafe(s, c);
      } else if |s.lists.busy| < s.lists.max {
        CreateSafe(s, c);
      } else {
        CallersAfter(s, Do(s, step), c, Waiting);
      }
    case Wake(c) => ExtractSafe(s, c);
    case Return(c) => GiveBackSafe(s, c);
    case Enqueue(c, task) => EnqueueSafe(s, c, task);
    case Abandon(c) => CallersAfter(s, Do(s, step), c, Idle);
    case Take(w) =>
    case Finish(w) =>
    case Complete(w) => CompleteSafe(s, w);
  }

  /** The bound, the disjointness and the hand-off hold in every reachable state. */
  lemma {:induction false} RunSafe<T>(s: State<T>, steps: seq<Step<T>>, t: State<T>)
    requires Safe(s) && Run(s, steps, t)
    ensures Safe(t)
    decreases |steps|
  {
    if steps != [] {
      StepSafe(s, steps[0]);
      RunSafe(Do(s, steps[0]), steps[1..], t);
    }
  }

  /** From the start of the pool on. */
  lemma PoolIsSafe<T>(s: State<T>, steps: seq<Step<T>>, t: State<T>)
    requires Initial(s) && Run(s, steps, t)
    ensures Safe(t)
  {
    RunSafe(s, steps, t);
  }

  // -------------------------------------------------------------------------------------
  // Progress of a waiting caller
  // -------------------------------------------------------------------------------------

  /** The steps that bring a worker back to the pool. */
  function Weight<T>(x: WorkerState<T>): nat {
    if x.slot.task.Some? then 3 else match x.phase case Running(_) => 2 case Completing => 1 case Ready => 0
  }

  function TotalWeight<T>(workers: seq<WorkerState<T>>): nat {
    if workers == [] then 0 else Weight(workers[0]) + TotalWeight(workers[1..])
  }

  lemma {:induction false} WeightUpdate<T>(workers: seq<WorkerState<T>>, w: nat, x: WorkerState<T>)
    requires w < |workers|
    ensures TotalWeight(workers[w := x]) + Weight(workers[w]) == TotalWeight(workers) + Weight(x)
  {
    if w > 0 {
      WeightUpdate(workers[1..], w - 1, x);
      assert workers[w := x][1..] == workers[1..][w - 1 := x];
    } else {
      assert workers[w := x][1..] == workers[1..];
    }
  }

  lemma {:induction false} NoWeight<T>(workers: seq<WorkerState<T>>)
    requires TotalWeight(workers) == 0
    ensures forall w :: 0 <= w < |workers| ==> Weight(workers[w]) == 0
  {
    if workers != [] {
      NoWeight(workers[1..]);
      assert workers == [workers[0]] + workers[1..];
    }
  }

  ghost predicate Held(callers: seq<Caller>, w: nat) {
    exists c: nat :: Holds(callers, c, w)
  }

  /** Every busy worker is at work or in a caller's hand. */
  ghost predicate NoneLost<T>(s: State<T>) {
    forall w :: w in s.lists.busy && 0 <= w < |s.workers| && AtRest(s.workers[w]) ==> Held(s.callers, w)
  }

  /** Other workers stay in the hands of their callers. */
  lemma HeldAfter(callers: seq<Caller>, c: nat, x: Caller, w: nat)
    requires c < |callers| && (callers[c] != Holding(w) || x == Holding(w))
    ensures Held(callers, w) ==> Held(callers[c := x], w)
  {
    if Held(callers, w) {
      var d: nat :| Holds(callers, d, w);
      assert Holds(callers[c := x], d, w);
    }
  }

  lemma HolderHolds(callers: seq<Caller>, c: nat, w: nat)
    requires c < |callers|
    ensures Held(callers[c := Holding(w)], w)
  {
    assert Holds(callers[c := Holding(w)], c, w);
  }

  lemma StepLosesNone<T>(s: State<T>, step: Step<T>)
    requires Safe(s) && Enabled(s, step) && NoneLost(s) && !step.Abandon?
    ensures NoneLost(Do(s, step))
  {
    var t := Do(s, step);
    if step.Complete? {
      GiveBackListed(s.lists, step.worker);
    } else if step.Return? {
      assert Holds(s.callers, step.caller, s.callers[step.caller].worker);
      GiveBackListed(s.lists, s.callers[step.caller].worker);
    } else if (step.Get? || step.Wake?) && s.lists.free != [] {
      ExtractListed(s.lists);
    } else if step.Enqueue? {
      EnqueueAccepted(s, step.caller, step.task);
    }
    forall w | w in t.lists.busy && 0 <= w < |t.workers| && AtRest(t.workers[w]) ensures Held(t.callers, w) {
      if !ByWorker(step) {
        var c := step.caller;
        if t.callers[c] == Holding(w) {
          HolderHolds(s.callers, c, w);
        } else {
          HeldAfter(s.callers, c, t.callers[c], w);
        }
      }
    }
  }

  predicate Keeps<T>(steps: seq<Step<T>>) {
    forall i :: 0 <= i < |steps| ==> !steps[i].Abandon?
  }

  lemma {:induction false} RunLosesNone<T>(s: State<T>, steps: seq<Step<T>>, t: State<T>)
    requires Safe(s) && NoneLost(s) && Keeps(steps) && Run(s, steps, t)
    ensures NoneLost(t) && Safe(t)
    decreases |steps|
  {
    if steps != [] {
      StepSafe(s, steps[0]);
      StepLosesNone(s, steps[0]);
      RunLosesNone(Do(s, steps[0]), steps[1..], t);
    }
  }

  /** The only caller is waiting for a worker. */
  ghost predicate Stuck<T>(s: State<T>) {
    Safe(s) && NoneLost(s) && s.callers == [Waiting] && s.lists.max > 0
  }

  lemma OthersWork<T>(s: State<T>, w: nat)
    requires Stuck(s) && w in s.lists.busy
    ensures w < |s.workers| && !AtRest(s.workers[w]) && Weight(s.workers[w]) > 0
  {
    assert forall c: nat :: !Holds(s.callers, c, w);
  }

  /** While no worker is free, some worker can go on. */
  lemma WaitingIsNotDeadlock<T>(s: State<T>)
    requires Stuck(s) && s.lists.free == []
    ensures exists step :: ByWorker(step) && Enabled(s, step)
  {
    assert s.callers[0].Waiting?;
    var w := s.lists.busy[0];
    assert w in s.lists.busy;
    OthersWork(s, w);
    var step: Step<T> := if s.workers[w].slot.task.Some? then Take(w)
      else if s.workers[w].phase.Running? then Finish(w) else Complete(w);
    assert ByWorker(step) && Enabled(s, step);
  }

  lemma WorkerStepProgresses<T>(s: State<T>, step: Step<T>)
    requires Stuck(s) && ByWorker(step) && Enabled(s, step)
    ensures Stuck(Do(s, step)) && TotalWeight(Do(s, step).workers) == TotalWeight(s.workers) - 1
  {
    StepSafe(s, step);
    StepLosesNone(s, step);
    WeightUpdate(s.workers, step.worker, Do(s, step).workers[step.worker]);
  }

  predicate AllByWorkers<T>(steps: seq<Step<T>>) {
    forall i :: 0 <= i < |steps| ==> ByWorker(steps[i])
  }

  /** However the workers are scheduled, after a bounded number of their steps one of them is free. */
  lemma {:induction false} WaitingEnds<T>(s: State<T>, steps: seq<Step<T>>, t: State<T>)
    requires Stuck(s) && AllByWorkers(steps) && Run(s, steps, t)
    ensures |steps| + TotalWeight(t.workers) == TotalWeight(s.workers)
    ensures |steps| == TotalWeight(s.workers) ==> t.lists.free != [] && Enabled(t, Step<T>.Wake(0))
    decreases |steps|
  {
    if steps == [] {
      if TotalWeight(s.workers) == 0 && s.lists.free == [] {
        NoWeight(s.workers);
        assert s.callers[0].Waiting? && s.lists.busy[0] in s.lists.busy;
        OthersWork(s, s.lists.busy[0]);
      }
    } else {
      WorkerStepProgresses(s, steps[0]);
      WaitingEnds(Do(s, steps[0]), steps[1..], t);
    }
  }

  lemma {:induction false} MaxStays<T>(s: State<T>, steps: seq<Step<T>>, t: State<T>)
    requires Run(s, steps, t)
    ensures t.lists.max == s.lists.max
    decreases |steps|
  {
    if steps != [] {
      MaxStays(Do(s, steps[0]), steps[1..], t);
    }
  }

  lemma InitialLosesNone<T>(s: State<T>)
    requires Initial(s)
    ensures Safe(s) && NoneLost(s)
  {
  }

  lemma {:induction false} StaysStuck<T>(s: State<T>, steps: seq<Step<T>>, t: State<T>)
    requires Stuck(s) && AllByWorkers(steps) && Run(s, steps, t)
    ensures Stuck(t)
    decreases |steps|
  {
    if steps != [] {
      WorkerStepProgresses(s, steps[0]);
      StaysStuck(Do(s, steps[0]), steps[1..], t);
    }
  }

  /** From the start of a pool, with one caller that loses no worker. */
  lemma GetFreeWorkerReturns<T>(s: State<T>, steps: seq<Step<T>>, t: State<T>, more: seq<Step<T>>, u: State<T>)
    requires Initial(s) && s.lists.max > 0 && Run(s, steps, t) && Keeps(steps)
    requires t.callers == [Waiting] && AllByWorkers(more) && Run(t, more, u)
    ensures |more| <= TotalWeight(t.workers)
    ensures |more| == TotalWeight(t.workers) ==> u.lists.free != []
    ensures u.lists.free == [] ==> exists step :: ByWorker(step) && Enabled(u, step)
  {
    InitialLosesNone(s);
    RunLosesNone(s, steps, t);
    MaxStays(s, steps, t);
    WaitingEnds(t, more, u);
    StaysStuck(t, more, u);
    if u.lists.free == [] {
      WaitingIsNotDeadlock(u);
    }
  }
}
