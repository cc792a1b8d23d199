/**
 The stoppable task queue and the threads that drain it, one step per mutex section.
 */
module TasksQueue {

  /** What the mutex protects. */
  datatype Queue<T> = Queue(tasks: seq<T>, stopped: bool)

  datatype Taken<T> = Task(task: T) | End | Blocked

  function Put<T>(q: Queue<T>, task: T): Queue<T>
    requires !q.stopped
  {
    q.(tasks := q.tasks + [task])
  }

  /** What get_task finds: the queue goes on giving out tasks after stop. */
  function Next<T>(q: Queue<T>): Taken<T> {
    if q.tasks != [] then Task(q.tasks[0]) else if q.stopped then End else Blocked
  }

  function Pop<T>(q: Queue<T>): Queue<T> {
    if q.tasks != [] then q.(tasks := q.tasks[1..]) else q
  }

  // -------------------------------------------------------------------------------------
  // The queue and the loop of a queue_worker
  // -------------------------------------------------------------------------------------

  class TaskQueue<T> {
    var tasks: seq<T>
    var stopped: bool

    ghost function Abs(): Queue<T>
      reads this
    {
      Queue(tasks, stopped)
    }

    constructor ()
      ensures Abs() == Queue([], false)
    {
      tasks, stopped := [], false;
    }

    /** False stands for the exception "enqueue on stopped tasks_queue". */
    method Enqueue(task: T) returns (accepted: bool)
      modifies this
      ensures accepted <==> !old(stopped)
      ensures Abs() == if accepted then Put(old(Abs()), task) else old(Abs())
    {
      if stopped {
        return false;
      }
      tasks := tasks + [task];
      return true;
    }

    /** Called when the wait is over: there is a task, or the queue is stopped. */
    method GetTask() returns (r: Taken<T>)
      requires Next(Abs()) != Blocked
      modifies this
      ensures r == Next(old(Abs())) && Abs() == Pop(old(Abs()))
    {
      if stopped && tasks == [] {
        return End;
      }
      r := Task(tasks[0]);
      tasks := tasks[1..];
    }

    method Stop()
      modifies this
      ensures Abs() == old(Abs()).(stopped := true)
    {
      stopped := true;
    }

    /** The loop of a worker that is alone with a stopped queue: it runs what is left, in order. */
    method Drain() returns (ran: seq<T>)
      requires stopped
      modifies this
      ensures ran == old(tasks) && tasks == [] && stopped
    {
      ran := [];
      var next := GetTask();
      while next.Task?
        invariant stopped
        invariant next.End? ==> tasks == []
        invariant old(tasks) == ran + (if next.Task? then [next.task] else []) + tasks
        invariant next != Blocked
        decreases |tasks| + (if next.Task? then 1 else 0)
      {
        ran := ran + [next.task];
        next := GetTask();
      }
    }
  }

  // -------------------------------------------------------------------------------------
  // All schedules
  // -------------------------------------------------------------------------------------

  datatype Phase<T> = Asking | Running(task: T) | Exited

  /** The shared queue, the threads, and what has happened: accepted, started and finished tasks. */
  datatype State<T> = State(
    queue: Queue<T>,
    threads: seq<Phase<T>>,
    accepted: seq<T>,
    started: seq<T>,
    finished: seq<T>)

  datatype Step<T> = Enqueue(task: T) | Stop | Take(thread: nat) | Finish(thread: nat)

  predicate Enabled<T>(s: State<T>, step: Step<T>) {
    match step
    case Enqueue(_) => true
    case Stop => true
    case Take(i) => i < |s.threads| && s.threads[i].Asking? && !Next(s.queue).Blocked?
    case Finish(i) => i < |s.threads| && s.threads[i].Running?
  }

  function Do<T>(s: State<T>, step: Step<T>): State<T>
    requires Enabled(s, step)
  {
    match step
    case Enqueue(task) => if s.queue.stopped then s else s.(queue := Put(s.queue, task), accepted := s.accepted + [task])
    case Stop => s.(queue := s.queue.(stopped := true))
    case Take(i) =>
      (match Next(s.queue)
       case Task(task) =>
         s.(queue := Pop(s.queue), threads := s.threads[i := Running(task)], started := s.started + [task])
       case End => s.(threads := s.threads[i := Exited]))
    case Finish(i) => s.(threads := s.threads[i := Asking], finished := s.finished + [s.threads[i].task])
  }

  /** A schedule: the states after some enabled steps. */
  ghost predicate Run<T>(s: State<T>, steps: seq<Step<T>>, t: State<T>)
    decreases |steps|
  {
    if steps == [] then s == t
    else Enabled(s, steps[0]) && Run(Do(s, steps[0]), steps[1..], t)
  }

  ghost predicate Initial<T>(s: State<T>) {
    && s.queue == Queue([], false) && s.accepted == s.started == s.finished == []
    && forall i :: 0 <= i < |s.threads| ==> s.threads[i].Asking?
  }

  function Held<T(==)>(p: Phase<T>, task: T): nat {
    if p == Running(task) then 1 else 0
  }

  /** How many threads are running a task. */
  function InHand<T(==)>(threads: seq<Phase<T>>, task: T): nat {
    if threads == [] then 0 else Held(threads[0], task) + InHand(threads[1..], task)
  }

  /** What every step keeps. */
  ghost predicate Sound<T(!new)>(s: State<T>) {
    && s.accepted == s.started + s.queue.tasks
    && (forall task :: multiset(s.started)[task] == multiset(s.finished)[task] + InHand(s.threads, task))
    && (forall i :: 0 <= i < |s.threads| && s.threads[i].Exited? ==> s.queue.stopped && s.queue.tasks == [])
    && (|s.threads| == 1 ==> s.started == s.finished + if s.threads[0].Running? then [s.threads[0].task] else [])
  }

  lemma {:induction false} InHandUpdate<T>(threads: seq<Phase<T>>, i: nat, p: Phase<T>, task: T)
    requires i < |threads|
    ensures InHand(threads[i := p], task) + Held(threads[i], task) == InHand(threads, task) + Held(p, task)
  {
    if i > 0 {
      InHandUpdate(threads[1..], i - 1, p, task);
      assert threads[i := p][1..] == threads[1..][i - 1 := p];
    } else {
      assert threads[i := p][1..] == threads[1..];
    }
  }

  lemma {:induction false} NothingInHand<T>(threads: seq<Phase<T>>, task: T)
    requires forall i :: 0 <= i < |threads| ==> !threads[i].Running?
    ensures InHand(threads, task) == 0
  {
    if threads != [] {
      NothingInHand(threads[1..], task);
    }
  }

  lemma EnqueueSound<T(!new)>(s: State<T>, task: T)
    requires Sound(s)
    ensures Sound(Do(s, Enqueue(task)))
  {
    assert s.started + (s.queue.tasks + [task]) == s.started + s.queue.tasks + [task];
  }

  lemma TaskTaken<T(!new)>(s: State<T>, i: nat)
    requires Sound(s) && Enabled(s, Take(i)) && s.queue.tasks != []
    ensures Sound(Do(s, Take(i)))
  {
    var task, rest := s.queue.tasks[0], s.queue.tasks[1..];
    assert s.started + s.queue.tasks == s.started + [task] + rest;
    forall x ensures multiset(s.started + [task])[x] ==
      multiset(s.finished)[x] + InHand(s.threads[i := Running(task)], x)
    {
      InHandUpdate(s.threads, i, Running(task), x);
    }
  }

  lemma ThreadExits<T(!new)>(s: State<T>, i: nat)
    requires Sound(s) && Enabled(s, Take(i)) && s.queue.tasks == []
    ensures Sound(Do(s, Take(i)))
  {
    forall x ensures InHand(s.threads[i := Exited], x) == InHand(s.threads, x) {
      InHandUpdate(s.threads, i, Exited, x);
    }
  }

  lemma FinishSound<T(!new)>(s: State<T>, i: nat)
    requires Sound(s) && Enabled(s, Finish(i))
    ensures Sound(Do(s, Finish(i)))
  {
    var task := s.threads[i].task;
    forall x ensures multiset(s.finished + [task])[x] + InHand(s.threads[i := Asking], x) == multiset(s.started)[x] {
      InHandUpdate(s.threads, i, Asking, x);
    }
    assert |s.threads| == 1 ==> s.started == s.finished + [task] + [];
  }

  lemma StepSound<T(!new)>(s: State<T>, step: Step<T>)
    requires Sound(s) && Enabled(s, step)
    ensures Sound(Do(s, step)) && |Do(s, step).threads| == |s.threads|
  {
    match step
    case Enqueue(task) => EnqueueSound(s, task);
    case Stop =>
    case Take(i) => if s.queue.tasks == [] { ThreadExits(s, i); } else { TaskTaken(s, i); }
    case Finish(i) => FinishSound(s, i);
  }

  lemma {:induction false} RunSound<T(!new)>(s: State<T>, steps: seq<Step<T>>, t: State<T>)
    requires Sound(s) && Run(s, steps, t)
    ensures Sound(t) && |t.threads| == |s.threads|
    decreases |steps|
  {
    if steps != [] {
      StepSound(s, steps[0]);
      RunSound(Do(s, steps[0]), steps[1..], t);
    }
  }

  lemma InitialSound<T(!new)>(s: State<T>)
    requires Initial(s)
    ensures Sound(s)
  {
    forall task ensures InHand(s.threads, task) == 0 {
      NothingInHand(s.threads, task);
    }
  }

  /** All threads have returned from their joins. */
  predicate Joined<T>(s: State<T>) {
    forall i :: 0 <= i < |s.threads| ==> s.threads[i].Exited?
  }

  /** When the last thread is joined, every accepted task has been run exactly once. */
  lemma JoinedHasRunAll<T(!new)>(s: State<T>, steps: seq<Step<T>>, t: State<T>)
    requires Initial(s) && |s.threads| > 0 && Run(s, steps, t) && Joined(t)
    ensures t.queue.stopped && t.started == t.accepted
    ensures multiset(t.finished) == multiset(t.accepted)
    ensures |s.threads| == 1 ==> t.finished == t.accepted
  {
    InitialSound(s);
    RunSound(s, steps, t);
    forall task ensures multiset(t.finished)[task] == multiset(t.accepted)[task] {
      NothingInHand(t.threads, task);
    }
    assert t.threads[0].Exited?;
    assert t.started + [] == t.started;
  }

  /** Tasks are started in the order in which they were accepted; a single thread also finishes them in it. */
  lemma StartedInOrder<T(!new)>(s: State<T>, steps: seq<Step<T>>, t: State<T>)
    requires Initial(s) && Run(s, steps, t)
    ensures t.started <= t.accepted
    ensures |s.threads| == 1 ==> t.finished <= t.accepted
  {
    InitialSound(s);
    RunSound(s, steps, t);
  }

  /** After stop nothing is accepted any more, and the queue stays stopped. */
  lemma {:induction false} NothingAfterStop<T>(s: State<T>, steps: seq<Step<T>>, t: State<T>)
    requires s.queue.stopped && Run(s, steps, t)
    ensures t.queue.stopped && t.accepted == s.accepted
    decreases |steps|
  {
    if steps != [] {
      NothingAfterStop(Do(s, steps[0]), steps[1..], t);
    }
  }

  /** How many steps the threads can still take once the queue is stopped. */
  function Work<T>(threads: seq<Phase<T>>): nat {
    if threads == [] then 0
    else (match threads[0] case Asking => 1 case Running(_) => 2 case Exited => 0) + Work(threads[1..])
  }

  function Left<T>(s: State<T>): nat {
    2 * |s.queue.tasks| + Work(s.threads)
  }

  predicate ByThread<T>(step: Step<T>) {
    step.Take? || step.Finish?
  }

  lemma {:induction false} WorkUpdate<T>(threads: seq<Phase<T>>, i: nat, p: Phase<T>)
    requires i < |threads|
    ensures Work(threads[i := p]) + Work([threads[i]]) == Work(threads) + Work([p])
  {
    assert forall q: Phase<T> :: [q][1..] == [];
    if i > 0 {
      WorkUpdate(threads[1..], i - 1, p);
      assert threads[i := p][1..] == threads[1..][i - 1 := p];
    } else {
      assert threads[i := p][1..] == threads[1..];
    }
  }

  /** Each step of a thread brings the end of a stopped queue nearer by one. */
  lemma StepWorks<T>(s: State<T>, step: Step<T>)
    requires s.queue.stopped && Enabled(s, step)
    ensures Left(Do(s, step)) == if ByThread(step) then Left(s) - 1 else Left(s)
  {
    var t := Do(s, step);
    assert forall q: Phase<T> :: [q][1..] == [];
    if ByThread(step) {
      WorkUpdate(s.threads, step.thread, t.threads[step.thread]);
    }
  }

  /** As long as a thread has not exited a stopped queue, it or another one can go on. */
  lemma StoppedQueueGoesOn<T>(s: State<T>)
    requires s.queue.stopped && !Joined(s)
    ensures exists step :: ByThread(step) && Enabled(s, step)
  {
    var i :| 0 <= i < |s.threads| && !s.threads[i].Exited?;
    var step: Step<T> := if s.threads[i].Asking? then Take(i) else Finish(i);
    assert ByThread(step) && Enabled(s, step);
  }

  function ThreadSteps<T>(steps: seq<Step<T>>): nat {
    if steps == [] then 0 else (if ByThread(steps[0]) then 1 else 0) + ThreadSteps(steps[1..])
  }

  /** So every schedule drains a stopped queue: after Left(s) steps of threads all of them have exited. */
  lemma {:induction false} StoppedQueueDrains<T>(s: State<T>, steps: seq<Step<T>>, t: State<T>)
    requires s.queue.stopped && Run(s, steps, t)
    ensures ThreadSteps(steps) + Left(t) == Left(s)
    ensures ThreadSteps(steps) == Left(s) ==> Joined(t)
    decreases |steps|
  {
    if steps == [] {
      if Left(s) == 0 {
        NoWorkLeft(s.threads);
      }
    } else {
      StepWorks(s, steps[0]);
      StoppedQueueDrains(Do(s, steps[0]), steps[1..], t);
    }
  }

  lemma {:induction false} NoWorkLeft<T>(threads: seq<Phase<T>>)
    requires Work(threads) == 0
    ensures forall i :: 0 <= i < |threads| ==> threads[i].Exited?
  {
    if threads != [] {
      NoWorkLeft(threads[1..]);
      assert threads == [threads[0]] + threads[1..];
    }
  }
}
