/**
 The in-memory bus: one publish queue, fanned out to the queues of the receive endpoints.
 */
module InMemoryBus {
  import opened TasksQueue

  // -------------------------------------------------------------------------------------
  // The objects
  // -------------------------------------------------------------------------------------

  /** An endpoint delivers into the queue of its own worker thread. */
  class ReceiveEndpoint<M> {
    const consumerWorker: TaskQueue<M>

    constructor ()
      ensures fresh(consumerWorker) && consumerWorker.Abs() == Queue([], false)
    {
      consumerWorker := new TaskQueue();
    }

    method Deliver(message: M) returns (accepted: bool)
      modifies consumerWorker
      ensures accepted <==> !old(consumerWorker.stopped)
      ensures consumerWorker.Abs() ==
        if accepted then Put(old(consumerWorker.Abs()), message) else old(consumerWorker.Abs())
    {
      accepted := consumerWorker.Enqueue(message);
    }
  }

  class Bus<M> {
    var receivers: seq<ReceiveEndpoint<M>>
    var publishWorker: TaskQueue<M>

    /** Every endpoint has a queue of its own. */
    ghost predicate Valid()
      reads this
    {
      && (forall r :: r in receivers ==> r.consumerWorker != publishWorker)
      && (forall i, j :: 0 <= i < j < |receivers| ==> receivers[i].consumerWorker != receivers[j].consumerWorker)
    }

    ghost function Queues(): set<object>
      reads this
    {
      set r | r in receivers :: r.consumerWorker
    }

    constructor ()
      ensures Valid() && receivers == []
    {
      receivers := [];
      publishWorker := new TaskQueue();
    }

    /** A new publish worker, and one more endpoint for each factory. */
    method Start(factories: nat)
      requires Valid()
      modifies this
      ensures Valid() && fresh(publishWorker) && publishWorker.Abs() == Queue([], false)
      ensures |receivers| == |old(receivers)| + factories && old(receivers) <= receivers
      ensures forall k :: |old(receivers)| <= k < |receivers| ==> receivers[k].consumerWorker.Abs() == Queue([], false)
    {
      publishWorker := new TaskQueue();
      for i := 0 to factories
        invariant Valid() && fresh(publishWorker) && publishWorker.Abs() == Queue([], false)
        invariant |receivers| == |old(receivers)| + i && old(receivers) <= receivers
        invariant forall k :: |old(receivers)| <= k < |receivers| ==>
          fresh(receivers[k].consumerWorker) && receivers[k].consumerWorker.Abs() == Queue([], false)
      {
        var r := new ReceiveEndpoint();
        receivers := receivers + [r];
      }
    }

    method Publish(message: M) returns (accepted: bool)
      modifies publishWorker
      ensures accepted <==> !old(publishWorker.stopped)
      ensures publishWorker.Abs() == if accepted then Put(old(publishWorker.Abs()), message) else old(publishWorker.Abs())
    {
      accepted := publishWorker.Enqueue(message);
    }

    /** The first n endpoints have got the message, the others have not. */
    twostate predicate ReachedFirst(n: nat, message: M)
      requires n <= |receivers|
      reads this, receivers, Queues()
    {
      && unchanged(this)
      && (forall k :: 0 <= k < n ==>
            && !old(receivers[k].consumerWorker.stopped)
            && receivers[k].consumerWorker.Abs() == Put(old(receivers[k].consumerWorker.Abs()), message))
      && (forall k :: n <= k < |receivers| ==>
            receivers[k].consumerWorker.Abs() == old(receivers[k].consumerWorker.Abs()))
    }

    /** What the publish worker runs for one message: deliver to one endpoint after the other, up to the first that throws. */
    method FanOut(message: M) returns (delivered: bool)
      requires Valid()
      modifies Queues()
      ensures delivered <==> forall r :: r in receivers ==> !old(r.consumerWorker.stopped)
      ensures delivered ==> ReachedFirst(|receivers|, message)
      ensures !delivered ==> exists k ::
        0 <= k < |receivers| && old(receivers[k].consumerWorker.stopped) && ReachedFirst(k, message)
    {
      for i := 0 to |receivers|
        invariant ReachedFirst(i, message)
        invariant forall k :: i <= k < |receivers| ==>
          receivers[k].consumerWorker.Abs() == old(receivers[k].consumerWorker.Abs())
      {
        assert receivers[i] in receivers;
        var accepted := receivers[i].Deliver(message);
        if !accepted {
          return false;
        }
      }
      return true;
    }
  }

  // -------------------------------------------------------------------------------------
  // All schedules from the end of start up to stop
  // -------------------------------------------------------------------------------------

  /** An endpoint: its queue, the message its thread handles, and those it has handled. */
  datatype Endpoint<M> = Endpoint(queue: seq<M>, handling: seq<M>, handled: seq<M>)

  /** The message being fanned out, and the endpoints that have it already. */
  datatype Fanning<M> = NoMessage | Fanning(message: M, reached: nat)

  datatype State<M> = State(publishQueue: seq<M>, fanning: Fanning<M>, endpoints: seq<Endpoint<M>>, accepted: seq<M>)

  datatype Step<M> =
    | Publish(message: M)
    | TakePublished | DeliverNext | FanOutDone
    | TakeDelivered(endpoint: nat) | Handled(endpoint: nat)

  predicate Enabled<M>(s: State<M>, step: Step<M>) {
    match step
    case Publish(_) => true
    case TakePublished => s.fanning.NoMessage? && s.publishQueue != []
    case DeliverNext => s.fanning.Fanning? && s.fanning.reached < |s.endpoints|
    case FanOutDone => s.fanning.Fanning? && s.fanning.reached == |s.endpoints|
    case TakeDelivered(i) => i < |s.endpoints| && s.endpoints[i].queue != [] && s.endpoints[i].handling == []
    case Handled(i) => i < |s.endpoints| && s.endpoints[i].handling != []
  }

  function Do<M>(s: State<M>, step: Step<M>): State<M>
    requires Enabled(s, step)
  {
    match step
    case Publish(m) => s.(publishQueue := s.publishQueue + [m], accepted := s.accepted + [m])
    case TakePublished => s.(fanning := Fanning(s.publishQueue[0], 0), publishQueue := s.publishQueue[1..])
    case DeliverNext =>
      var i := s.fanning.reached;
      var e := s.endpoints[i];
      s.(endpoints := s.endpoints[i := e.(queue := e.queue + [s.fanning.message])],
         fanning := s.fanning.(reached := i + 1))
    case FanOutDone => s.(fanning := NoMessage)
    case TakeDelivered(i) =>
      var e := s.endpoints[i];
      s.(endpoints := s.endpoints[i := e.(queue := e.queue[1..], handling := [e.queue[0]])])
    case Handled(i) =>
      var e := s.endpoints[i];
      s.(endpoints := s.endpoints[i := e.(handling := [], handled := e.handled + e.handling)])
  }

  ghost predicate Run<M>(s: State<M>, steps: seq<Step<M>>, t: State<M>)
    decreases |steps|
  {
    if steps == [] then s == t
    else Enabled(s, steps[0]) && Run(Do(s, steps[0]), steps[1..], t)
  }

  ghost predicate Initial<M>(s: State<M>) {
    && s.publishQueue == s.accepted == [] && s.fanning.NoMessage?
    && forall i :: 0 <= i < |s.endpoints| ==> s.endpoints[i] == Endpoint([], [], [])
  }

  /** What is still to reach an endpoint. */
  function Coming<M>(s: State<M>, i: nat): seq<M> {
    (if s.fanning.Fanning? && i >= s.fanning.reached then [s.fanning.message] else []) + s.publishQueue
  }

  function Seen<M>(e: Endpoint<M>): seq<M> {
    e.handled + e.handling + e.queue
  }

  /** Handled, in hand, queued and coming messages are the accepted ones, in that order. */
  ghost predicate Ordered<M>(s: State<M>) {
    && (s.fanning.Fanning? ==> s.fanning.reached <= |s.endpoints|)
    && forall i :: 0 <= i < |s.endpoints| ==>
      |s.endpoints[i].handling| <= 1 && Seen(s.endpoints[i]) + Coming(s, i) == s.accepted
  }

  lemma PublishOrdered<M>(s: State<M>, m: M)
    requires Ordered(s)
    ensures Ordered(Do(s, Publish(m)))
  {
    var t := Do(s, Publish(m));
    forall i | 0 <= i < |t.endpoints| ensures Seen(t.endpoints[i]) + Coming(t, i) == t.accepted {
      assert Coming(t, i) == Coming(s, i) + [m];
      assert Seen(s.endpoints[i]) + (Coming(s, i) + [m]) == Seen(s.endpoints[i]) + Coming(s, i) + [m];
    }
  }

  lemma TakeOrdered<M>(s: State<M>)
    requires Ordered(s) && Enabled(s, Step<M>.TakePublished)
    ensures Ordered(Do(s, Step<M>.TakePublished))
  {
    var t := Do(s, Step<M>.TakePublished);
    assert s.publishQueue == [s.publishQueue[0]] + s.publishQueue[1..];
    forall i | 0 <= i < |t.endpoints| ensures Seen(t.endpoints[i]) + Coming(t, i) == t.accepted {
      assert Coming(t, i) == Coming(s, i);
    }
  }

  lemma DeliverOrdered<M>(s: State<M>)
    requires Ordered(s) && Enabled(s, Step<M>.DeliverNext)
    ensures Ordered(Do(s, Step<M>.DeliverNext))
  {
    var t := Do(s, Step<M>.DeliverNext);
    var k, m := s.fanning.reached, s.fanning.message;
    forall i | 0 <= i < |t.endpoints| ensures Seen(t.endpoints[i]) + Coming(t, i) == t.accepted {
      if i == k {
        var e := s.endpoints[i];
        assert Coming(s, i) == [m] + s.publishQueue && Coming(t, i) == s.publishQueue;
        assert Seen(t.endpoints[i]) == Seen(e) + [m];
        assert Seen(e) + [m] + s.publishQueue == Seen(e) + ([m] + s.publishQueue);
      } else {
        assert Coming(t, i) == Coming(s, i);
      }
    }
  }

  lemma FanOutDoneOrdered<M>(s: State<M>)
    requires Ordered(s) && Enabled(s, Step<M>.FanOutDone)
    ensures Ordered(Do(s, Step<M>.FanOutDone))
  {
    var t := Do(s, Step<M>.FanOutDone);
    forall i | 0 <= i < |t.endpoints| ensures Seen(t.endpoints[i]) + Coming(t, i) == t.accepted {
      assert Coming(t, i) == Coming(s, i);
    }
  }

  lemma EndpointOrdered<M>(s: State<M>, step: Step<M>)
    requires Ordered(s) && Enabled(s, step) && (step.TakeDelivered? || step.Handled?)
    ensures Ordered(Do(s, step))
  {
    var t := Do(s, step);
    var k := step.endpoint;
    var e := s.endpoints[k];
    assert step.TakeDelivered? ==> e.queue == [e.queue[0]] + e.queue[1..];
    assert Seen(t.endpoints[k]) == Seen(e);
    forall i | 0 <= i < |t.endpoints| ensures Seen(t.endpoints[i]) + Coming(t, i) == t.accepted {
      assert Coming(t, i) == Coming(s, i);
    }
  }

  lemma StepOrdered<M>(s: State<M>, step: Step<M>)
    requires Ordered(s) && Enabled(s, step)
    ensures Ordered(Do(s, step)) && |Do(s, step).endpoints| == |s.endpoints|
  {
    match step
    case Publish(m) => PublishOrdered(s, m);
    case TakePublished => TakeOrdered(s);
    case DeliverNext => DeliverOrdered(s);
    case FanOutDone => FanOutDoneOrdered(s);
    case _ => EndpointOrdered(s, step);
  }

  lemma {:induction false} RunOrdered<M>(s: State<M>, steps: seq<Step<M>>, t: State<M>)
    requires Ordered(s) && Run(s, steps, t)
    ensures Ordered(t) && |t.endpoints| == |s.endpoints|
    decreases |steps|
  {
    if steps != [] {
      StepOrdered(s, steps[0]);
      RunOrdered(Do(s, steps[0]), steps[1..], t);
    }
  }

  /** Every schedule of the bus keeps the publications of each endpoint complete and in order. */
  lemma BusIsOrdered<M>(s: State<M>, steps: seq<Step<M>>, t: State<M>)
    requires Initial(s) && Run(s, steps, t)
    ensures Ordered(t)
  {
    assert forall i :: 0 <= i < |s.endpoints| ==> Seen(s.endpoints[i]) + Coming(s, i) == [];
    RunOrdered(s, steps, t);
  }

  /** Any two endpoints have handled prefixes of one order. */
  lemma SameOrderEverywhere<M>(s: State<M>, steps: seq<Step<M>>, t: State<M>, i: nat, k: nat)
    requires Initial(s) && Run(s, steps, t) && i < |t.endpoints| && k < |t.endpoints|
    ensures var x, y := t.endpoints[i].handled, t.endpoints[k].handled;
      x <= t.accepted && y <= t.accepted && (x <= y || y <= x)
  {
    BusIsOrdered(s, steps, t);
    var x, y := t.endpoints[i], t.endpoints[k];
    assert t.accepted == x.handled + (x.handling + x.queue + Coming(t, i)) by {
      assert Seen(x) + Coming(t, i) == x.handled + (x.handling + x.queue + Coming(t, i));
    }
    assert t.accepted == y.handled + (y.handling + y.queue + Coming(t, k)) by {
      assert Seen(y) + Coming(t, k) == y.handled + (y.handling + y.queue + Coming(t, k));
    }
    PrefixesCompare(x.handled, y.handled, t.accepted);
  }

  lemma PrefixesCompare<M>(x: seq<M>, y: seq<M>, whole: seq<M>)
    requires x <= whole && y <= whole
    ensures x <= y || y <= x
  {
    assert x == whole[..|x|] && y == whole[..|y|];
  }

  /** When nothing but a publication can happen, every endpoint has handled every accepted message. */
  lemma QuietBusHasDelivered<M>(s: State<M>, steps: seq<Step<M>>, t: State<M>)
    requires Initial(s) && Run(s, steps, t)
    requires forall step :: Enabled(t, step) ==> step.Publish?
    ensures forall i :: 0 <= i < |t.endpoints| ==> t.endpoints[i].handled == t.accepted
  {
    BusIsOrdered(s, steps, t);
    assert !Enabled(t, Step<M>.TakePublished) && !Enabled(t, Step<M>.DeliverNext) && !Enabled(t, Step<M>.FanOutDone);
    assert t.fanning.NoMessage? && t.publishQueue == [];
    forall i | 0 <= i < |t.endpoints| ensures t.endpoints[i].handled == t.accepted {
      assert !Enabled(t, Step<M>.TakeDelivered(i)) && !Enabled(t, Step<M>.Handled(i));
      var e := t.endpoints[i];
      assert e.handled + [] + [] + ([] + []) == e.handled;
    }
  }

  // -------------------------------------------------------------------------------------
  // The bus comes to rest
  // -------------------------------------------------------------------------------------

  /** The steps an endpoint has still to take for its messages. */
  function Load<M>(e: Endpoint<M>): nat {
    2 * |e.queue| + |e.handling|
  }

  function Backlog<M>(es: seq<Endpoint<M>>): nat {
    if es == [] then 0 else Load(es[0]) + Backlog(es[1..])
  }

  /** The steps that a publication with its deliveries takes: taking it, handing it out, and two for each endpoint. */
  function Cost<M>(s: State<M>): nat {
    3 * |s.endpoints| + 2
  }

  /** How many steps the bus can take without a further publication. */
  function Left<M>(s: State<M>): int {
    Cost(s) * |s.publishQueue|
    + (if s.fanning.Fanning? then 3 * (|s.endpoints| - s.fanning.reached) + 1 else 0)
    + Backlog(s.endpoints)
  }

  lemma {:induction false} BacklogUpdate<M>(es: seq<Endpoint<M>>, i: nat, e: Endpoint<M>)
    requires i < |es|
    ensures Backlog(es[i := e]) + Load(es[i]) == Backlog(es) + Load(e)
  {
    if i > 0 {
      BacklogUpdate(es[1..], i - 1, e);
      assert es[i := e][1..] == es[1..][i - 1 := e];
    } else {
      assert es[i := e][1..] == es[1..];
    }
  }

  lemma {:induction false} NoBacklog<M>(es: seq<Endpoint<M>>)
    ensures Backlog(es) == 0 <==> forall i :: 0 <= i < |es| ==> es[i].queue == [] && es[i].handling == []
  {
    if es != [] {
      NoBacklog(es[1..]);
      assert es == [es[0]] + es[1..];
    }
  }

  lemma OneMore(cost: nat, n: nat)
    ensures cost * (n + 1) == cost * n + cost
  {
  }

  /** Every step but a publication brings the rest nearer by one. */
  lemma StepWorks<M>(s: State<M>, step: Step<M>)
    requires Ordered(s) && Enabled(s, step)
    ensures Left(Do(s, step)) == if step.Publish? then Left(s) + Cost(s) else Left(s) - 1
  {
    var t := Do(s, step);
    match step
    case Publish(_) => OneMore(Cost(s), |s.publishQueue|);
    case TakePublished => OneMore(Cost(s), |s.publishQueue| - 1);
    case DeliverNext => BacklogUpdate(s.endpoints, s.fanning.reached, t.endpoints[s.fanning.reached]);
    case FanOutDone =>
    case TakeDelivered(i) => BacklogUpdate(s.endpoints, i, t.endpoints[i]);
    case Handled(i) => BacklogUpdate(s.endpoints, i, t.endpoints[i]);
  }

  lemma AtLeast(cost: nat, n: nat)
    requires cost >= 1
    ensures cost * n >= n
  {
    assert (cost - 1) * n >= 0;
    assert cost * n == (cost - 1) * n + n;
  }

  /** Nothing is left exactly when no message is under way. */
  lemma NothingLeft<M>(s: State<M>)
    requires s.fanning.Fanning? ==> s.fanning.reached <= |s.endpoints|
    ensures Left(s) >= 0
    ensures Left(s) == 0 <==> s.publishQueue == [] && s.fanning.NoMessage? && Backlog(s.endpoints) == 0
  {
    AtLeast(Cost(s), |s.publishQueue|);
  }

  /** While there is something left to do, some thread can do it. */
  lemma BusGoesOn<M>(s: State<M>)
    requires Ordered(s)
    ensures Left(s) >= 0
    ensures Left(s) > 0 ==> exists step :: Enabled(s, step) && !step.Publish?
  {
    NothingLeft(s);
    NoBacklog(s.endpoints);
    if s.fanning.Fanning? {
      var step := if s.fanning.reached < |s.endpoints| then Step<M>.DeliverNext else Step<M>.FanOutDone;
      assert Enabled(s, step) && !step.Publish?;
    } else if s.publishQueue != [] {
      assert Enabled(s, Step<M>.TakePublished) && !Step<M>.TakePublished.Publish?;
    } else if Backlog(s.endpoints) > 0 {
      var i :| 0 <= i < |s.endpoints| && (s.endpoints[i].queue != [] || s.endpoints[i].handling != []);
      var step := if s.endpoints[i].handling == [] then Step<M>.TakeDelivered(i) else Step<M>.Handled(i);
      assert Enabled(s, step) && !step.Publish?;
    }
  }

  /** When nothing is left, every endpoint has handled every accepted message. */
  lemma AtRest<M>(s: State<M>)
    requires Ordered(s) && Left(s) == 0
    ensures forall i :: 0 <= i < |s.endpoints| ==> s.endpoints[i].handled == s.accepted
  {
    NoBacklog(s.endpoints);
    NothingLeft(s);
    forall i | 0 <= i < |s.endpoints| ensures s.endpoints[i].handled == s.accepted {
      var e := s.endpoints[i];
      assert e.handled + [] + [] + ([] + []) == e.handled;
    }
  }

  /**
   Every schedule without further publications comes to rest: it has Left(s) steps at most, it can go on as long as it
   has fewer, and with so many every endpoint has handled every accepted message.
   */
  lemma {:induction false} BusComesToRest<M>(s: State<M>, steps: seq<Step<M>>, t: State<M>)
    requires Ordered(s) && Run(s, steps, t) && forall step :: step in steps ==> !step.Publish?
    ensures Ordered(t) && t.accepted == s.accepted && |steps| + Left(t) == Left(s) && |steps| <= Left(s)
    ensures |steps| < Left(s) ==> exists step :: Enabled(t, step) && !step.Publish?
    ensures |steps| == Left(s) ==> forall i :: 0 <= i < |t.endpoints| ==> t.endpoints[i].handled == s.accepted
    decreases |steps|
  {
    if steps == [] {
      BusGoesOn(t);
      if Left(t) == 0 {
        AtRest(t);
      }
    } else {
      StepWorks(s, steps[0]);
      StepOrdered(s, steps[0]);
      BusComesToRest(Do(s, steps[0]), steps[1..], t);
    }
  }
}
