/**
 Allocation of channel numbers, and the consumers that hold channels.
 */
module ChannelTable {

  datatype ChannelState = Closed | Open | Used

  /** channels[0] is the connection's own channel; consumers maps a consumer tag to its channel. */
  datatype Table = Table(channels: seq<ChannelState>, lastUsed: nat, consumers: map<string, nat>)

  /** How a request on a channel ends: a reply, a broken connection, or the broker closing the channel. */
  datatype Outcome = Replied | Broken | ClosedByBroker

  datatype Acquired = Acquired(id: nat) | TooMany | NotOpened

  const Initial := Table([Used], 0, map[])

  /** The negotiated maximum; 0 stands for no limit. */
  function Limit(channelMax: nat): nat {
    if channelMax == 0 then 65535 else channelMax
  }

  /** The index of the first channel in a state, or the number of channels. */
  function FirstIn(channels: seq<ChannelState>, s: ChannelState): (i: nat)
    ensures i <= |channels|
    ensures i < |channels| ==> channels[i] == s
    ensures forall k :: 0 <= k < i ==> channels[k] != s
  {
    if channels == [] || channels[0] == s then 0 else 1 + FirstIn(channels[1..], s)
  }

  /** Open a channel that is not open yet; granted tells whether the broker let it be. */
  function Create(t: Table, channelMax: nat, granted: bool): (Table, Acquired) {
    var i := FirstIn(t.channels, Closed);
    if i == |t.channels| && Limit(channelMax) < |t.channels| then (t, TooMany)
    else
      var channels := if i == |t.channels| then t.channels + [Closed] else t.channels;
      if granted then (t.(channels := channels[i := Used]), Acquired(i))
      else (t.(channels := channels), NotOpened)
  }

  /** No channel is free, so that a new one has to be opened. */
  predicate NeedsNew(t: Table)
    requires t.lastUsed < |t.channels|
  {
    t.channels[t.lastUsed] != Open && FirstIn(t.channels, Open) == |t.channels|
  }

  function Acquire(t: Table, channelMax: nat, granted: bool): (Table, Acquired)
    requires t.lastUsed < |t.channels|
  {
    if t.channels[t.lastUsed] == Open then
      (t.(channels := t.channels[t.lastUsed := Used]), Acquired(t.lastUsed))
    else
      var i := FirstIn(t.channels, Open);
      if i == |t.channels| then Create(t, channelMax, granted)
      else (t.(channels := t.channels[i := Used]), Acquired(i))
  }

  function Release(t: Table, c: nat): Table
    requires c < |t.channels|
  {
    t.(channels := t.channels[c := Open], lastUsed := c)
  }

  function Close(t: Table, c: nat): Table
    requires c < |t.channels|
  {
    t.(channels := t.channels[c := Closed])
  }

  /** What the rest of an operation does with the channel it acquired. */
  function Settle(t: Table, c: nat, outcome: Outcome, onReply: Table): Table
    requires c < |t.channels|
  {
    match outcome
    case Replied => onReply
    case Broken => t
    case ClosedByBroker => Close(t, c)
  }

  /**
   What happens to the table. OnConsumer: a request or a wait on a consumer's channel (qos, recover,
   consume_message). CancelledByBroker and CloseMet: a basic.cancel and a channel.close of the broker that
   some read meets on channel c.
   */
  datatype Op =
    | Consume(tag: string, granted: bool, outcome: Outcome)
    | CancelConsumer(tag: string, outcome: Outcome)
    | OnConsumer(tag: string, outcome: Outcome)
    | CancelledByBroker(tag: string, c: nat)
    | CloseMet(c: nat)
    | Transient(granted: bool, outcome: Outcome)

  function AddConsumer(t: Table, tag: string, c: nat): Table {
    if tag in t.consumers then t else t.(consumers := t.consumers[tag := c])
  }

  /** The consumer is forgotten, and channel c is returned. */
  function DropConsumer(t: Table, tag: string, c: nat): Table {
    var u := t.(consumers := t.consumers - {tag});
    if c < |u.channels| then Release(u, c) else u
  }

  /** finish_close_channel: a number without a channel is an error. */
  function Closing(t: Table, c: nat): Table {
    if c < |t.channels| then Close(t, c) else t
  }

  /** One public operation, or one method of the broker, from the point of view of the channels. */
  function Step(t: Table, channelMax: nat, op: Op): Table
    requires Valid(t, channelMax)
  {
    match op
    case Consume(tag, granted, outcome) =>
      var (u, a) := Acquire(t, channelMax, granted);
      if a.Acquired? && a.id < |u.channels| then Settle(u, a.id, outcome, AddConsumer(u, tag, a.id)) else u
    case CancelConsumer(tag, outcome) =>
      if tag in t.consumers then Settle(t, t.consumers[tag], outcome, DropConsumer(t, tag, t.consumers[tag])) else t
    case OnConsumer(tag, outcome) =>
      if tag in t.consumers then Settle(t, t.consumers[tag], outcome, t) else t
    case CancelledByBroker(tag, c) =>
      if tag in t.consumers then DropConsumer(t, tag, c) else t
    case CloseMet(c) => Closing(t, c)
    case Transient(granted, outcome) =>
      var (u, a) := Acquire(t, channelMax, granted);
      if a.Acquired? && a.id < |u.channels| then Settle(u, a.id, outcome, Release(u, a.id)) else u
  }

  /** Mapped consumers hold pairwise distinct channels in use, none of them the connection's own. */
  ghost predicate Valid(t: Table, channelMax: nat) {
    && 1 <= |t.channels| <= Limit(channelMax) + 1
    && t.lastUsed < |t.channels|
    && t.channels[0] == Used
    && (forall tag :: tag in t.consumers ==> 0 < t.consumers[tag] < |t.channels| && t.channels[t.consumers[tag]] == Used)
    && (forall a, b :: a in t.consumers && b in t.consumers && a != b ==> t.consumers[a] != t.consumers[b])
  }

  lemma InitialValid(channelMax: nat)
    ensures Valid(Initial, channelMax)
  {
  }

  /** An acquired channel is a real one, was not in use, and respects the negotiated maximum. */
  lemma AcquireIsFresh(t: Table, channelMax: nat, granted: bool)
    requires Valid(t, channelMax)
    ensures var (u, a) := Acquire(t, channelMax, granted);
      a.Acquired? ==>
        && 0 < a.id <= Limit(channelMax) && a.id < |u.channels|
        && (a.id < |t.channels| ==> t.channels[a.id] != Used)
        && u.channels[a.id] == Used
        && (forall tag :: tag in t.consumers ==> t.consumers[tag] != a.id)
  {
  }

  /** Which channel is handed out, and that nothing else in the table changes. */
  lemma AcquireChooses(t: Table, channelMax: nat, granted: bool)
    requires t.lastUsed < |t.channels|
    ensures var (u, a) := Acquire(t, channelMax, granted);
      && (t.channels[t.lastUsed] == Open ==> a == Acquired(t.lastUsed))
      && (t.channels[t.lastUsed] != Open && Open in t.channels ==>
            a.Acquired? && a.id < |t.channels| && t.channels[a.id] == Open && Open !in t.channels[..a.id])
      && (Open !in t.channels && a.Acquired? ==> granted)
      && (Open !in t.channels && a.Acquired? && ChannelState.Closed in t.channels ==>
            a.id < |t.channels| && t.channels[a.id] == ChannelState.Closed && ChannelState.Closed !in t.channels[..a.id])
      && (Open !in t.channels && a.Acquired? && ChannelState.Closed !in t.channels ==> a.id == |t.channels|)
      && u.lastUsed == t.lastUsed && u.consumers == t.consumers
      && (a.Acquired? ==>
            u.channels == if a.id < |t.channels| then t.channels[a.id := Used] else t.channels + [Used])
      && (!a.Acquired? ==> Open !in t.channels && u.channels in {t.channels, t.channels + [ChannelState.Closed]})
  {
    var i, c := FirstIn(t.channels, Open), FirstIn(t.channels, ChannelState.Closed);
    assert i < |t.channels| ==> t.channels[i] in t.channels;
    assert c < |t.channels| ==> t.channels[c] in t.channels;
    assert c == |t.channels| ==> (t.channels + [ChannelState.Closed])[c := Used] == t.channels + [Used];
  }

  /** What becomes of a channel and its consumer when a request on it ends. */
  lemma ConsumerStep(t: Table, channelMax: nat, tag: string, outcome: Outcome)
    requires Valid(t, channelMax) && tag in t.consumers
    ensures var c, cancelled, used := t.consumers[tag], Step(t, channelMax, CancelConsumer(tag, outcome)),
        Step(t, channelMax, OnConsumer(tag, outcome));
      && (outcome == Replied ==>
            && cancelled.channels == t.channels[c := Open] && cancelled.lastUsed == c
            && tag !in cancelled.consumers && cancelled.consumers.Keys == t.consumers.Keys - {tag}
            && (forall other :: other in cancelled.consumers ==> cancelled.consumers[other] == t.consumers[other])
            && used == t)
      && (outcome == Broken ==> cancelled == t && used == t)
      && (outcome == ClosedByBroker ==>
            cancelled == used && used.channels == t.channels[c := ChannelState.Closed]
            && used.lastUsed == t.lastUsed && used.consumers == t.consumers)
  {
  }

  lemma UsedValid(t: Table, channelMax: nat, i: nat)
    requires Valid(t, channelMax) && i < |t.channels|
    ensures Valid(t.(channels := t.channels[i := Used]), channelMax)
  {
  }

  lemma GrownValid(t: Table, channelMax: nat)
    requires Valid(t, channelMax) && |t.channels| <= Limit(channelMax)
    ensures Valid(t.(channels := t.channels + [Closed]), channelMax)
  {
  }

  lemma CreateValid(t: Table, channelMax: nat, granted: bool)
    requires Valid(t, channelMax)
    ensures var u := Create(t, channelMax, granted).0; Valid(u, channelMax) && u.consumers == t.consumers
  {
    var i := FirstIn(t.channels, Closed);
    if i < |t.channels| {
      UsedValid(t, channelMax, i);
    } else if |t.channels| <= Limit(channelMax) {
      GrownValid(t, channelMax);
      UsedValid(t.(channels := t.channels + [Closed]), channelMax, i);
    }
  }

  lemma AcquireValid(t: Table, channelMax: nat, granted: bool)
    requires Valid(t, channelMax)
    ensures var u := Acquire(t, channelMax, granted).0; Valid(u, channelMax) && u.consumers == t.consumers
  {
    var i := if t.channels[t.lastUsed] == Open then t.lastUsed else FirstIn(t.channels, Open);
    if i < |t.channels| {
      UsedValid(t, channelMax, i);
    } else {
      CreateValid(t, channelMax, granted);
    }
  }

  /** The request is refused exactly when every number the broker allows is in use. */
  lemma AcquireRefused(t: Table, channelMax: nat, granted: bool)
    requires Valid(t, channelMax)
    ensures Acquire(t, channelMax, granted).1.TooMany? <==>
      |t.channels| == Limit(channelMax) + 1 && forall i :: 0 <= i < |t.channels| ==> t.channels[i] == Used
  {
    assert FirstIn(t.channels, Open) == |t.channels| && FirstIn(t.channels, Closed) == |t.channels| ==>
      forall i :: 0 <= i < |t.channels| ==> t.channels[i] == Used;
  }

  /** Channel c is the connection's own, or belongs to a consumer other than the given one. */
  predicate HeldBeside(t: Table, c: nat, tag: string) {
    c == 0 || exists other :: other in t.consumers && other != tag && t.consumers[other] == c
  }

  predicate Held(t: Table, c: nat) {
    c == 0 || exists tag :: tag in t.consumers && t.consumers[tag] == c
  }

  /**
   A consumer stays in the map although its channel is given up: the broker closes the channel during a
   request or a wait of its consumer or during any other read, or it cancels one consumer on the channel of another.
   */
  predicate TakesChannel(t: Table, op: Op) {
    match op
    case CancelConsumer(tag, outcome) => tag in t.consumers && outcome == ClosedByBroker
    case OnConsumer(tag, outcome) => tag in t.consumers && outcome == ClosedByBroker
    case CancelledByBroker(tag, c) => tag in t.consumers && HeldBeside(t, c, tag)
    case CloseMet(c) => Held(t, c)
    case _ => false
  }

  /** A channel that no consumer holds may be settled in any way. */
  lemma SettleFreeValid(u: Table, channelMax: nat, c: nat, outcome: Outcome, tag: string)
    requires Valid(u, channelMax) && 0 < c < |u.channels| && u.channels[c] == Used
    requires forall other :: other in u.consumers ==> u.consumers[other] != c
    ensures Valid(Settle(u, c, outcome, AddConsumer(u, tag, c)), channelMax)
    ensures Valid(Settle(u, c, outcome, Release(u, c)), channelMax)
  {
  }

  /** Giving up a channel, by returning or closing it. */
  lemma GivenUp(t: Table, channelMax: nat, c: nat, s: ChannelState)
    requires Valid(t, channelMax) && c < |t.channels| && s != Used
    ensures Valid(t.(channels := t.channels[c := s]), channelMax) <==> !Held(t, c)
  {
    var u := t.(channels := t.channels[c := s]);
    if tag :| tag in t.consumers && t.consumers[tag] == c {
      assert u.channels[u.consumers[tag]] == s;
    }
  }

  lemma ForgottenValid(t: Table, channelMax: nat, tag: string)
    requires Valid(t, channelMax) && tag in t.consumers
    ensures var u := t.(consumers := t.consumers - {tag});
      Valid(u, channelMax) && forall c :: Held(u, c) <==> HeldBeside(t, c, tag)
  {
    var u := t.(consumers := t.consumers - {tag});
    forall c ensures Held(u, c) <==> HeldBeside(t, c, tag) {
      if other :| other in t.consumers && other != tag && t.consumers[other] == c {
        assert other in u.consumers && u.consumers[other] == c;
      }
    }
  }

  lemma DropValid(t: Table, channelMax: nat, tag: string, c: nat)
    requires Valid(t, channelMax) && tag in t.consumers
    ensures Valid(DropConsumer(t, tag, c), channelMax) <==> !HeldBeside(t, c, tag)
  {
    var u := t.(consumers := t.consumers - {tag});
    ForgottenValid(t, channelMax, tag);
    if c < |u.channels| {
      GivenUp(u, channelMax, c, Open);
      var w := u.(channels := u.channels[c := Open]);
      assert Release(u, c) == w.(lastUsed := c);
      assert Valid(Release(u, c), channelMax) <==> Valid(w, channelMax);
    }
  }

  lemma ClosingValid(t: Table, channelMax: nat, c: nat)
    requires Valid(t, channelMax)
    ensures Valid(Closing(t, c), channelMax) <==> !Held(t, c)
  {
    if c < |t.channels| {
      GivenUp(t, channelMax, c, Closed);
    }
  }

  /** What happens on the channel of a consumer. */
  lemma ConsumerStepValid(t: Table, channelMax: nat, op: Op)
    requires Valid(t, channelMax) && !op.Consume? && !op.Transient?
    ensures Valid(Step(t, channelMax, op), channelMax) <==> !TakesChannel(t, op)
  {
    match op
    case CancelConsumer(tag, outcome) =>
      if tag in t.consumers {
        DropValid(t, channelMax, tag, t.consumers[tag]);
        ClosingValid(t, channelMax, t.consumers[tag]);
      }
    case OnConsumer(tag, outcome) =>
      if tag in t.consumers {
        ClosingValid(t, channelMax, t.consumers[tag]);
      }
    case CancelledByBroker(tag, c) =>
      if tag in t.consumers {
        DropValid(t, channelMax, tag, c);
      }
    case CloseMet(c) => ClosingValid(t, channelMax, c);
    case _ =>
  }

  /** A step keeps consumers on pairwise distinct channels in use exactly unless it takes one from its consumer. */
  lemma StepValid(t: Table, channelMax: nat, op: Op)
    requires Valid(t, channelMax)
    ensures Valid(Step(t, channelMax, op), channelMax) <==> !TakesChannel(t, op)
  {
    if op.Consume? || op.Transient? {
      AcquireIsFresh(t, channelMax, op.granted);
      AcquireValid(t, channelMax, op.granted);
      var (u, a) := Acquire(t, channelMax, op.granted);
      if a.Acquired? {
        SettleFreeValid(u, channelMax, a.id, op.outcome, if op.Consume? then op.tag else "");
      }
    } else {
      ConsumerStepValid(t, channelMax, op);
    }
  }

  /** The tables along a run. */
  ghost predicate IsRun(ts: seq<Table>, ops: seq<Op>, channelMax: nat) {
    && |ts| == |ops| + 1
    && ts[0] == Initial
    && forall i :: 0 <= i < |ops| ==> Valid(ts[i], channelMax) ==> ts[i + 1] == Step(ts[i], channelMax, ops[i])
  }

  /** Whatever the requests, replies and failures, no two consumers ever share a channel. */
  lemma {:induction false} ConsumersKeepDistinctChannels(ts: seq<Table>, ops: seq<Op>, channelMax: nat, n: nat)
    requires IsRun(ts, ops, channelMax) && n < |ts|
    requires forall i :: 0 <= i < |ops| ==> !TakesChannel(ts[i], ops[i])
    ensures Valid(ts[n], channelMax)
  {
    if n == 0 {
      InitialValid(channelMax);
    } else {
      ConsumersKeepDistinctChannels(ts, ops, channelMax, n - 1);
      StepValid(ts[n - 1], channelMax, ops[n - 1]);
    }
  }

  /** After such a close, in a cancel, in a wait or in passing, channel 1 is handed out again: two consumers share it. */
  lemma ClosedConsumerIsShared(op: Op)
    requires op in {CancelConsumer("a", ClosedByBroker), OnConsumer("a", ClosedByBroker), CloseMet(1)}
    ensures var t := Step(Initial, 0, Consume("a", true, Replied));
      && Valid(t, 0)
      && var u := Step(t, 0, op);
         var (w, a) := Acquire(u, 0, true);
         a == Acquired(1) && AddConsumer(w, "b", 1).consumers == map["a" := 1, "b" := 1]
  {
    InitialValid(0);
    assert FirstIn([Used], Open) == 1 && FirstIn([Used], Closed) == 1;
    var t := Step(Initial, 0, Consume("a", true, Replied));
    assert t == Table([Used, Used], 0, map["a" := 1]);
    StepValid(Initial, 0, Consume("a", true, Replied));
    var u := Step(t, 0, op);
    assert u.channels == [Used, Closed];
    assert FirstIn(u.channels, Open) == 2 && FirstIn(u.channels, Closed) == 1;
  }
}
