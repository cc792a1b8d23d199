/**
 The AMQP connection object: one connection carries the interleaved frames of many channels, and
 reading one channel may queue and finish messages of another.
 */
module AmqpChannel {
  import opened AmqpFrames
  import opened AmqpView
  import opened AmqpOutcome
  import opened AmqpCalls
  import opened ChannelTable
  import opened Sequences
  import opened Wrappers

  class AmqpChannelImpl {
    var queue: seq<Frame>
    var delivered: seq<Envelope>
    var unread: seq<Frame>
    ghost var reading: map<ChannelId, Phase>
    var connected: bool
    var sent: seq<Sent>
    var channels: seq<ChannelState>
    var lastUsed: ChannelId
    var consumers: map<string, ChannelId>

    ghost function Channels(): Table
      reads this
    {
      Table(channels, lastUsed, consumers)
    }

    ghost function Abs(): View
      reads this
    {
      View(queue, delivered, UpToClose(unread), reading)
    }

    ghost function State(): Conn
      reads this
    {
      Conn(Abs(), Channels(), connected, sent)
    }

    /**
     The broker's next frame; a timed wait may end without one, an untimed one only with the connection.
     Behind a connection.close nothing is read any more.
     */
    method GetNextFrameFromBroker(timed: bool) returns (r: Fetch<Frame>)
      modifies `unread
      ensures r.Got? ==> old(Abs()).unread == [r.value] + Abs().unread && |unread| < |old(unread)|
      ensures r.Got? && IsConnectionClose(r.value) ==> unread == []
      ensures !r.Got? ==> unread == old(unread)
      ensures r.NoFrame? ==> timed
      ensures r.Failed? ==> !timed && unread == [] && r.error == LibraryError
    {
      if unread == [] {
        return if timed then NoFrame else Failed(LibraryError);
      }
      if timed {
        if * { return NoFrame; }
      }
      r := Got(unread[0]);
      unread := if IsConnectionClose(unread[0]) then [] else unread[1..];
    }

    /** The index of the first queued frame of the channel, from index start on. */
    method FindOnChannel(start: nat, c: ChannelId) returns (i: nat)
      requires start <= |queue|
      ensures start <= i <= |queue|
      ensures On(queue[start..], c) == if i < |queue| then [queue[i]] + On(queue[i + 1..], c) else []
      ensures i < |queue| ==> queue[i].channel == c
      ensures forall k :: start <= k < i ==> queue[k].channel != c
    {
      i := start;
      while i < |queue| && queue[i].channel != c
        invariant start <= i <= |queue|
        invariant On(queue[start..], c) == On(queue[i..], c)
        invariant forall k :: start <= k < i ==> queue[k].channel != c
      {
        assert queue[i..][1..] == queue[i + 1..];
        i := i + 1;
      }
      if i < |queue| {
        assert queue[i..][1..] == queue[i + 1..];
      }
    }

    /** The scan of the queue for a complete message of the channel. */
    method CheckForQueuedMessageOnChannel(c: ChannelId) returns (r: ScanResult)
      ensures r == Scan(On(queue, c))
    {
      var i := FindOnChannel(0, c);
      assert queue[0..] == queue;
      ghost var rest := if i < |queue| then On(queue[i + 1..], c) else [];
      while i < |queue| && !IsDeliver(queue[i])
        invariant i <= |queue|
        invariant i < |queue| ==> rest == On(queue[i + 1..], c)
        invariant Scan(On(queue, c)) == if i < |queue| then Scan([queue[i]] + rest) else Incomplete
        decreases |queue| - i
      {
        ScanStep(queue[i], rest);
        i := FindOnChannel(i + 1, c);
        rest := if i < |queue| then On(queue[i + 1..], c) else [];
      }
      if i == |queue| {
        return Incomplete;
      }
      ScanStep(queue[i], rest);
      i := FindOnChannel(i + 1, c);
      if i == |queue| {
        return Incomplete;
      }
      assert rest[0] == queue[i] && rest[1..] == On(queue[i + 1..], c);
      if !queue[i].payload.Header? {
        return Violation;
      }
      r := CheckForQueuedBody(c, i, queue[i].payload.bodySize);
    }

    /** The last part of the scan: the body frames behind the header at index header. */
    method CheckForQueuedBody(c: ChannelId, header: nat, size: nat) returns (r: ScanResult)
      requires header < |queue|
      ensures r == ScanBody(On(queue[header + 1..], c), size, 0)
    {
      var i, received: nat := header, 0;
      ghost var rest := On(queue[i + 1..], c);
      while received < size
        invariant i < |queue| && rest == On(queue[i + 1..], c)
        invariant ScanBody(On(queue[header + 1..], c), size, 0) == ScanBody(rest, size, received)
        decreases |queue| - i
      {
        i := FindOnChannel(i + 1, c);
        if i == |queue| {
          return Incomplete;
        }
        assert rest[0] == queue[i] && rest[1..] == On(queue[i + 1..], c);
        if !queue[i].payload.Body? {
          return Violation;
        }
        received := received + |queue[i].payload.fragment|;
        rest := rest[1..];
      }
      return Complete;
    }

    /** Assemble the message that is complete in the queue. */
    method AssembleQueued(c: ChannelId) returns (r: Fetch<()>)
      requires c != 0
      modifies this
      decreases |unread|, 11
      ensures !r.NoFrame?
      ensures |unread| <= old(|unread|) && |queue| + |unread| <= old(|queue| + |unread|)
      ensures Ended(old(State()), State(), FailureOf(r))
      ensures var v := old(Abs()); Sound(v) && c !in v.reading && Queued(v, c) ==>
        r.Got? && Sound(Abs()) && Abs().unread == old(Abs()).unread && reading == old(reading) && OnlyTouches(v, Abs(), c)
    {
      ghost var v, start := Abs(), State();
      var inner := ConsumeMessageOnChannelInner([c], false);
      match inner
      case Failed(error) => return Failed(error);
      case NoFrame => return Failed(LogicError);
      case Got(envelope) =>
        delivered := delivered + [envelope];
        if Sound(v) && c !in v.reading && Queued(v, c) {
          QueuedEnvelopeOnChannel(v, c);
          DeliverQueuedConserves(v, c, Abs());
        }
        return Got(());
    }

    /** Queue a frame of a channel nobody waits for, and assemble the message it may complete. */
    method AddToFrameQueue(frame: Frame) returns (r: Fetch<()>)
      requires frame.channel != 0
      modifies this
      decreases |unread|, 12
      ensures !r.NoFrame?
      ensures |unread| <= old(|unread|) && |queue| + |unread| <= old(|queue| + |unread|) + 1
      ensures Ended(old(State()).(view := old(Abs()).(unread := [frame] + old(Abs()).unread)), State(), FailureOf(r))
      ensures var v := old(Abs()).(unread := [frame] + old(Abs()).unread);
        Sound(v) && !IsReply(frame) && frame.channel !in v.reading ==>
          r.Got? && Sound(Abs()) && Abs().unread == old(Abs()).unread && reading == old(reading) && OnlyTouches(v, Abs(), frame.channel)
    {
      ghost var v := Abs().(unread := [frame] + Abs().unread);
      ghost var before := State().(view := v);
      queue := queue + [frame];
      ghost var v1, queued := Abs(), State();
      assert Ended(before, queued, None);
      FrameQueued(v, v1, frame, v1.unread);
      ghost var assumed := Sound(v) && !IsReply(frame) && frame.channel !in v.reading;
      var scan := CheckForQueuedMessageOnChannel(frame.channel);
      if assumed { ScanOfQueue(v1, frame.channel); }
      if scan == Violation {
        return Failed(ProtocolViolation);
      }
      r := Got(());
      if scan == Complete {
        r := AssembleQueued(frame.channel);
        EndedThen(before, queued, State(), FailureOf(r));
        if assumed { OnlyTouchesThen(v, v1, Abs(), frame.channel); }
      }
    }

    method FinishCloseConnection() returns (e: Error)
      modifies `connected, `sent
      ensures e == ConnectionClosed && !connected && sent == old(sent) + [Sent(0, CONNECTION_CLOSE_OK)]
    {
      connected := false;
      sent := sent + [Sent(0, CONNECTION_CLOSE_OK)];
      return ConnectionClosed;
    }

    /** What becomes of a frame that nobody waits for; v is the view before the wait. */
    method PassOver(frame: Frame, waited: seq<ChannelId>, ghost v: View, ghost assumed: bool) returns (r: Fetch<()>)
      requires 0 !in waited && frame.channel !in waited && (IsConnectionClose(frame) ==> unread == [])
      requires assumed ==> var v0 := Abs().(unread := [frame] + Abs().unread);
        Waitable(v0, waited) && WaitedFor(v, v0, waited) && UntouchedAll(v, v0, waited)
      modifies this
      decreases |unread|, 13
      ensures |unread| <= old(|unread|) && |queue| + |unread| <= old(|queue| + |unread|) + 1
      ensures !r.NoFrame?
      ensures Ended(old(State()).(view := old(Abs()).(unread := [frame] + old(Abs()).unread)), State(), FailureOf(r))
      ensures assumed ==>
        && Waitable(Abs(), waited) && WaitedFor(v, Abs(), waited) && UntouchedAll(v, Abs(), waited)
        && (r.Failed? ==> r.error == ConnectionClosed)
    {
      ghost var v0 := Abs().(unread := [frame] + Abs().unread);
      if frame.channel == 0 {
        if assumed { DropZero(v, v0, Abs(), waited, frame); }
        if IsMethod(frame, ConnectionClose) {
          var error := FinishCloseConnection();
          return Failed(error);
        }
        return Got(());
      }
      r := AddToFrameQueue(frame);
      if assumed { Queue(v, v0, Abs(), waited, frame); }
    }

    /** One round of reading from the broker; v is the view before the first one. */
    method NextFromBroker(waited: seq<ChannelId>, timed: bool, ghost v: View, ghost assumed: bool) returns (r: Round)
      requires 0 !in waited
      requires assumed ==> Waitable(Abs(), waited) && WaitedFor(v, Abs(), waited) && UntouchedAll(v, Abs(), waited)
      modifies this
      decreases |unread|, 0
      ensures |unread| <= old(|unread|) && |queue| + |unread| <= old(|queue| + |unread|)
      ensures r.Again? || (r.End? && r.fetched.Got?) ==> |unread| < old(|unread|)
      ensures r.End? && r.fetched.Got? ==>
        && r.fetched.value.channel in waited && r.fetched.value in old(Abs()).unread
        && |queue| + |unread| < old(|queue| + |unread|)
      ensures r.End? && r.fetched.NoFrame? ==> timed
      ensures Ended(old(State()), State(), if r.End? then FailureOf(r.fetched) else None)
      ensures assumed && r.Again? ==> Waitable(Abs(), waited) && WaitedFor(v, Abs(), waited) && UntouchedAll(v, Abs(), waited)
      ensures assumed && r.End? ==> FrameWaited(v, old(Abs()), Abs(), waited, timed, r.fetched)
    {
      ghost var v0, before := Abs(), State();
      var frame := GetNextFrameFromBroker(timed);
      if !frame.Got? {
        return End(frame);
      }
      assert frame.value in v0.unread;
      ghost var popped := State();
      if frame.value.channel in waited {
        if assumed { HandOver(v, v0, Abs(), waited, frame.value); }
        return End(frame);
      }
      var passed := PassOver(frame.value, waited, v, assumed);
      assert popped.(view := popped.view.(unread := [frame.value] + popped.view.unread)) == before;
      if passed.Failed? {
        return End(Failed(passed.error));
      }
      if timed {
        if * {
          return End(NoFrame);
        }
      }
      return Again;
    }

    /** Read from the broker until a frame of one of the channels arrives. */
    method GetNextFrameFromBrokerOnChannel(waited: seq<ChannelId>, timed: bool) returns (r: Fetch<Frame>)
      requires 0 !in waited
      modifies this
      decreases |unread|, 1
      ensures |unread| <= old(|unread|) && |queue| + |unread| <= old(|queue| + |unread|)
      ensures r.Got? ==> |unread| < old(|unread|) && |queue| + |unread| < old(|queue| + |unread|)
      ensures r.Got? ==> r.value.channel in waited && r.value in old(Abs()).unread
      ensures r.NoFrame? ==> timed
      ensures Ended(old(State()), State(), FailureOf(r))
      ensures Waitable(old(Abs()), waited) ==> FrameWaited(old(Abs()), old(Abs()), Abs(), waited, timed, r)
    {
      ghost var v, start := Abs(), State();
      ghost var assumed := Waitable(v, waited);
      while true
        invariant |unread| <= old(|unread|) && |queue| + |unread| <= old(|queue| + |unread|)
        invariant Ended(start, State(), None)
        invariant assumed ==> Waitable(Abs(), waited) && WaitedFor(v, Abs(), waited) && UntouchedAll(v, Abs(), waited)
        decreases |unread|
      {
        ghost var before := State();
        var round := NextFromBroker(waited, timed, v, assumed);
        EndedThen(start, before, State(), if round.End? then FailureOf(round.fetched) else None);
        if round.End? {
          if assumed { FrameWaitedEarlier(v, before.view, Abs(), waited, timed, round.fetched); }
          return round.fetched;
        }
      }
    }

    /** Take the first queued frame of a channel, which stands at index i. */
    method TakeFromQueue(c: ChannelId, i: nat) returns (r: Fetch<Frame>)
      requires i < |queue| && queue[i].channel == c && (forall k :: 0 <= k < i ==> queue[k].channel != c)
      modifies this
      ensures |queue| == |old(queue)| - 1 && unread == old(unread) && !r.NoFrame? && Ended(old(State()), State(), FailureOf(r))
      ensures var v := old(Abs());
        && On(v.queue, c) != [] && Abs() == v.(queue := DropOn(v.queue, c, 1))
        && if IsMethod(On(v.queue, c)[0], ChannelClose) then r.Failed? && Channels() == Closing(old(Channels()), c)
           else r == Got(On(v.queue, c)[0])
    {
      OnNone(queue[..i], c);
      EraseIsDropOn(queue, i, c);
      var frame := queue[i];
      queue := queue[..i] + queue[i + 1..];
      if IsMethod(frame, ChannelClose) {
        r := FinishCloseChannel(c);
        assert MetClose(old(Abs()), old(Channels()), Channels(), c);
        return;
      }
      return Got(frame);
    }

    /** The next frame of one channel: the first queued one, or else the broker's. */
    method GetNextFrameOnChannel(c: ChannelId, timed: bool) returns (r: Fetch<Frame>)
      requires c != 0
      modifies this
      decreases |unread|, 2
      ensures |unread| <= old(|unread|) && |queue| + |unread| <= old(|queue| + |unread|)
      ensures r.Got? ==> |queue| + |unread| < old(|queue| + |unread|)
      ensures r.Got? ==> r.value.channel == c
      ensures r.NoFrame? ==> timed
      ensures Ended(old(State()), State(), FailureOf(r))
      ensures var v := old(Abs()); On(v.queue, c) != [] ==>
        && Abs() == v.(queue := DropOn(v.queue, c, 1))
        && if IsMethod(On(v.queue, c)[0], ChannelClose) then r.Failed? && Channels() == Closing(old(Channels()), c)
           else r == Got(On(v.queue, c)[0])
      ensures var v := old(Abs()); On(v.queue, c) == [] && Waitable(v, [c]) ==>
        && WaitedFor(v, Abs(), [c])
        && (r.Got? ==> r.value in v.unread && Took(v, Abs(), c, r.value))
        && (r.NoFrame? ==> Untouched(v, Abs(), c))
        && (r.Failed? ==> StreamEnds(v, Abs(), timed, r.error) && On(v.unread, c) == [])
    {
      var i := FindOnChannel(0, c);
      assert queue[0..] == queue;
      if i < |queue| {
        OnMembers(queue, c);
        r := TakeFromQueue(c, i);
        return;
      }
      ghost var v := Abs();
      r := GetNextFrameFromBrokerOnChannel([c], timed);
      if !r.Got? && Waitable(v, [c]) { NothingTaken(v, Abs(), c); }
    }

    method FinishCloseChannel(c: ChannelId) returns (r: Fetch<Frame>)
      modifies `channels, `sent
      ensures r == Failed(if c < |channels| then ChannelClosed else OutOfRange)
      ensures Channels() == Closing(old(Channels()), c)
      ensures sent == if c < |channels| then old(sent) + [Sent(c, CHANNEL_CLOSE_OK)] else old(sent)
    {
      if c >= |channels| {
        return Failed(OutOfRange);
      }
      channels := channels[c := Closed];
      sent := sent + [Sent(c, CHANNEL_CLOSE_OK)];
      return Failed(ChannelClosed);
    }

    /** The first expected method among the queued frames. */
    method FindExpected(waited: seq<ChannelId>, wanted: Wanted) returns (i: nat)
      ensures i <= |queue|
      ensures forall k :: 0 <= k < i ==> !IsExpected(queue[k], waited, wanted)
      ensures i < |queue| ==> IsExpected(queue[i], waited, wanted)
    {
      i := 0;
      while i < |queue| && !IsExpected(queue[i], waited, wanted)
        invariant i <= |queue|
        invariant forall k :: 0 <= k < i ==> !IsExpected(queue[k], waited, wanted)
      {
        i := i + 1;
      }
    }

    /** A frame of an awaited channel that is not the expected one. */
    method KeepForLater(frame: Frame, waited: seq<ChannelId>, wanted: Wanted, ghost v: View, ghost assumed: bool) returns (r: Fetch<()>)
      requires assumed ==>
        && Awaitable(v, waited, wanted) && frame in v.unread && frame.channel in waited && !IsExpected(frame, waited, wanted)
        && WaitedMethod(v, Abs(), waited, wanted, [frame]) && !IsMethod(frame, ChannelClose)
      modifies this
      ensures unread == old(unread) && |queue| <= |old(queue)| + 1
      ensures if IsMethod(frame, ChannelClose) then
          && r == Failed(if frame.channel < |old(channels)| then ChannelClosed else OutOfRange)
          && Channels() == Closing(old(Channels()), frame.channel) && Abs() == old(Abs()) && connected == old(connected)
          && sent == old(sent) + if r.error == ChannelClosed then [Sent(frame.channel, CHANNEL_CLOSE_OK)] else []
        else
          r == Got(()) && State() == old(State()).(view := Abs()) && Abs() == old(Abs()).(queue := old(queue) + [frame])
      ensures assumed ==> Waitable(Abs(), waited) && WaitedMethod(v, Abs(), waited, wanted, [])
    {
      if IsMethod(frame, ChannelClose) {
        var closed := FinishCloseChannel(frame.channel);
        return Failed(closed.error);
      }
      queue := queue + [frame];
      if assumed { PushUnscanned(v, old(Abs()), Abs(), waited, wanted, frame); }
      return Got(());
    }

    /** One round of the wait for an expected method; v is the state before the first one. */
    method NextMethod(waited: seq<ChannelId>, wanted: Wanted, timed: bool, ghost v: View, ghost assumed: bool) returns (r: Round)
      requires 0 !in waited
      requires assumed ==>
        && Awaitable(v, waited, wanted) && Waitable(Abs(), waited) && WaitedMethod(v, Abs(), waited, wanted, [])
        && (ClosesConnection(Abs()) <==> ClosesConnection(v))
      modifies this
      decreases |unread|, 2
      ensures |unread| <= old(|unread|) && |queue| + |unread| <= old(|queue| + |unread|)
      ensures r.Again? ==> |unread| < old(|unread|)
      ensures r.End? && r.fetched.Got? ==> IsExpected(r.fetched.value, waited, wanted) && r.fetched.value in old(Abs()).unread
      ensures r.End? && r.fetched.NoFrame? ==> timed
      ensures Ended(old(State()), State(), if r.End? then FailureOf(r.fetched) else None)
      ensures assumed && r.Again? ==> Waitable(Abs(), waited) && WaitedMethod(v, Abs(), waited, wanted, [])
      ensures assumed && r.End? ==> MethodWaited(v, Abs(), waited, wanted, timed, r.fetched)
    {
      ghost var v0, before := Abs(), State();
      var incoming := GetNextFrameFromBrokerOnChannel(waited, timed);
      ghost var read := State();
      if assumed { WaitedMore(v, v0, Abs(), waited, wanted, if incoming.Got? then [incoming.value] else []); }
      if !incoming.Got? || IsExpected(incoming.value, waited, wanted) {
        return End(incoming);
      }
      if assumed { NotClose(v0, incoming.value); }
      var kept := KeepForLater(incoming.value, waited, wanted, v, assumed);
      assert kept.Failed? ==> MetClose(before.view, before.table, Channels(), incoming.value.channel);
      if kept.Failed? {
        return End(Failed(kept.error));
      }
      if timed {
        if * {
          return End(NoFrame);
        }
      }
      return Again;
    }

    /** Wait for an expected method; other frames of the channels are queued as they are, unscanned. */
    method GetMethodOnChannel(waited: seq<ChannelId>, wanted: Wanted, timed: bool) returns (r: Fetch<Frame>)
      requires 0 !in waited
      modifies this
      decreases |unread|, 3
      ensures |unread| <= old(|unread|) && |queue| + |unread| <= old(|queue| + |unread|)
      ensures r.Got? ==> IsExpected(r.value, waited, wanted) && Seen(old(Abs()), r.value)
      ensures r.NoFrame? ==> timed
      ensures Ended(old(State()), State(), FailureOf(r))
      ensures Holds(old(queue), waited, wanted) ==> r.Got? && Picked(old(Abs()), Abs(), waited, wanted, r.value)
      ensures var v := old(Abs()); !Holds(v.queue, waited, wanted) && Awaitable(v, waited, wanted) ==>
        MethodWaited(v, Abs(), waited, wanted, timed, r)
    {
      ghost var v, start := Abs(), State();
      var i := FindExpected(waited, wanted);
      if i < |queue| {
        var frame := queue[i];
        queue := queue[..i] + queue[i + 1..];
        return Got(frame);
      }
      ghost var assumed := Awaitable(v, waited, wanted);
      while true
        invariant |unread| <= old(|unread|) && |queue| + |unread| <= old(|queue| + |unread|)
        invariant Ended(start, State(), None)
        invariant assumed ==> Waitable(Abs(), waited) && WaitedMethod(v, Abs(), waited, wanted, [])
        decreases |unread|
      {
        ghost var before := State();
        var round := NextMethod(waited, wanted, timed, v, assumed);
        EndedThen(start, before, State(), if round.End? then FailureOf(round.fetched) else None);
        if round.End? {
          return round.fetched;
        }
      }
    }

    static method CopyFragment(body: array<byte>, at: nat, fragment: seq<byte>)
      requires at + |fragment| <= body.Length
      modifies body
      ensures body[..at + |fragment|] == old(body[..at]) + fragment
    {
      forall k | 0 <= k < |fragment| {
        body[at + k] := fragment[k];
      }
    }

    /** Read the header of the current message. */
    method ReadHeader(c: ChannelId) returns (r: Fetch<Frame>)
      requires c != 0
      modifies this
      decreases |unread|, 4
      ensures |unread| <= old(|unread|) && |queue| + |unread| <= old(|queue| + |unread|)
      ensures !r.NoFrame? && (r.Got? ==> r.value.payload.Header?)
      ensures Ended(old(State()), State(), FailureOf(r))
      ensures var v := old(Abs());
        BeginsQueued(v, c) ==>
          && r.Got? && Clean(queue)
          && MidwayQueued(v, Abs(), c, Envelope(c, v.reading[c].info, r.value.payload.properties, []), r.value.payload.bodySize)
      ensures var v := old(Abs());
        BeginsAtBroker(v, c) ==>
          && (r.Got? ==>
                Midway(v, Abs(), c, Envelope(c, v.reading[c].info, r.value.payload.properties, []), r.value.payload.bodySize))
          && (r.Failed? ==> BreaksOff(v, Abs(), c, r.error))
    {
      ghost var v := Abs();
      r := NextFrame(c);
      if r.Got? && Begins(v, c) {
        ghost var info := v.reading[c].info;
        if BeginsQueued(v, c) { MidwayQueuedStart(v, Abs(), c, info, r.value); }
        if BeginsAtBroker(v, c) { HeaderExpected(v, Abs(), c, info, r.value); }
      }
      if r.Got? && !r.value.payload.Header? {
        return Failed(UnexpectedFrame);
      }
    }

    /** Read the header and the body frames of the current message into a buffer of the announced size. */
    method ReadContent(c: ChannelId) returns (r: Fetch<Content>)
      requires c != 0
      modifies this
      decreases |unread|, 7
      ensures |unread| <= old(|unread|) && |queue| + |unread| <= old(|queue| + |unread|)
      ensures !r.NoFrame?
      ensures Ended(old(State()), State(), FailureOf(r))
      ensures var v := old(Abs());
        BeginsQueued(v, c) ==>
          && r.Got? && Abs() == TakeQueued(v, c)
          && FirstQueued(v, c) == Envelope(c, v.reading[c].info, r.value.properties, r.value.body)
      ensures var v := old(Abs());
        BeginsAtBroker(v, c) ==>
          && (r.Got? ==> Midway(v, Abs(), c, Envelope(c, v.reading[c].info, r.value.properties, r.value.body), 0))
          && (r.Failed? ==> BreaksOff(v, Abs(), c, r.error))
    {
      ghost var v, start := Abs(), State();
      ghost var queued, broker := BeginsQueued(v, c), BeginsAtBroker(v, c);
      ghost var info := if Begins(v, c) then v.reading[c].info else DeliverInfo("", 0, "", false, "");
      var header := ReadHeader(c);
      ghost var begun := State();
      if header.Failed? {
        return Failed(header.error);
      }
      var properties, size := header.value.payload.properties, header.value.payload.bodySize;
      var body := new byte[size];
      assert body[..0] == [];
      var error := ReadBody(c, body, v, Envelope(c, info, properties, []), queued, broker);
      EndedThen(start, begun, State(), FailureOf(error));
      return if error.Failed? then Failed(error.error) else Got(Content(properties, body[..]));
    }

    /** The next body frame of the current message, of which m has been received. */
    method NextFragment(c: ChannelId, size: nat, ghost v: View, ghost m: Envelope, ghost queued: bool, ghost broker: bool)
      returns (r: Fetch<seq<byte>>)
      requires c != 0 && m.channel == c && |m.body| < size
      requires Partway(v, Abs(), c, m, size, queued, broker) && (broker ==> v.reading.Keys == {c})
      modifies this
      decreases |unread|, 4
      ensures |unread| <= old(|unread|) && |queue| + |unread| <= old(|queue| + |unread|)
      ensures r.Got? ==> |queue| + |unread| < old(|queue| + |unread|)
      ensures !r.NoFrame? && (queued ==> r.Got?)
      ensures Ended(old(State()), State(), FailureOf(r))
      ensures r.Got? ==>
        && (queued || broker ==> |m.body| + |r.value| <= size)
        && Partway(v, Abs(), c, m.(body := m.body + r.value), size, queued, broker)
      ensures broker && r.Failed? ==> r.error in {ConnectionClosed, LibraryError} && MessagesLeft(v, c) == []
    {
      ghost var x := Abs();
      var frame := NextFrame(c);
      if frame.Failed? {
        return Failed(frame.error);
      }
      if !frame.value.payload.Body? {
        return Failed(UnexpectedFrame);
      }
      FragmentReceived(v, x, Abs(), c, m, size, frame.value, queued, broker);
      return Got(frame.value.payload.fragment);
    }

    /** One round of the loop over the body frames; the result is the number of bytes received so far. */
    method ReadFragment(c: ChannelId, body: array<byte>, received: nat,
        ghost v: View, ghost m: Envelope, ghost queued: bool, ghost broker: bool)
      returns (r: Fetch<nat>)
      requires c != 0 && received < body.Length && m.channel == c && m.body == body[..received]
      requires Partway(v, Abs(), c, m, body.Length, queued, broker) && (broker ==> v.reading.Keys == {c})
      modifies this, body
      decreases |unread|, 5
      ensures |unread| <= old(|unread|) && |queue| + |unread| <= old(|queue| + |unread|)
      ensures r.Got? ==> |queue| + |unread| < old(|queue| + |unread|) && r.value <= body.Length
      ensures !r.NoFrame?
      ensures Ended(old(State()), State(), FailureOf(r))
      ensures r.Got? ==> Partway(v, Abs(), c, m.(body := body[..r.value]), body.Length, queued, broker)
      ensures queued ==> r.Got?
      ensures broker && r.Failed? ==> r.error in {ConnectionClosed, LibraryError} && MessagesLeft(v, c) == []
    {
      var next := NextFragment(c, body.Length, v, m, queued, broker);
      if next.Failed? {
        return Failed(next.error);
      }
      var fragment := next.value;
      if received + |fragment| > body.Length {
        return Failed(BodyOverrun);
      }
      CopyFragment(body, received, fragment);
      return Got(received + |fragment|);
    }

    /** The loop over the body frames; v is the state before the header, m the message without its body. */
    method ReadBody(c: ChannelId, body: array<byte>, ghost v: View, ghost m: Envelope, ghost queued: bool, ghost broker: bool)
      returns (r: Fetch<()>)
      requires c != 0 && m.channel == c && m.body == []
      requires Partway(v, Abs(), c, m, body.Length, queued, broker) && (broker ==> v.reading.Keys == {c})
      modifies this, body
      decreases |unread|, 6
      ensures |unread| <= old(|unread|) && |queue| + |unread| <= old(|queue| + |unread|)
      ensures !r.NoFrame?
      ensures Ended(old(State()), State(), FailureOf(r))
      ensures r.Got? ==> Partway(v, Abs(), c, m.(body := body[..]), body.Length, queued, broker)
      ensures queued ==> r.Got?
      ensures broker && r.Failed? ==> r.error in {ConnectionClosed, LibraryError} && MessagesLeft(v, c) == []
    {
      ghost var start := State();
      var received := 0;
      assert body[..0] == [];
      while received < body.Length
        invariant 0 <= received <= body.Length && Ended(start, State(), None)
        invariant |unread| <= old(|unread|) && |queue| + |unread| <= old(|queue| + |unread|)
        invariant Partway(v, Abs(), c, m.(body := body[..received]), body.Length, queued, broker)
        decreases |queue| + |unread|
      {
        ghost var before := State();
        var fragment := ReadFragment(c, body, received, v, m.(body := body[..received]), queued, broker);
        EndedThen(start, before, State(), FailureOf(fragment));
        if fragment.Failed? {
          return Failed(fragment.error);
        }
        received := fragment.value;
      }
      assert body[..received] == body[..];
      return Got(());
    }

    /** The untimed read of the next frame of a channel that is being read, its reader moving on. */
    method NextFrame(c: ChannelId) returns (r: Fetch<Frame>)
      requires c != 0
      modifies this
      decreases |unread|, 3
      ensures |unread| <= old(|unread|) && |queue| + |unread| <= old(|queue| + |unread|)
      ensures r.Got? ==> |queue| + |unread| < old(|queue| + |unread|)
      ensures r.Got? ==> r.value.channel == c
      ensures !r.NoFrame?
      ensures Ended(old(State()), State(), FailureOf(r))
      ensures var v := old(Abs());
        c in v.reading && v.reading[c] != Idle && Queued(v, c) && Clean(v.queue) ==>
          && r == Got(On(v.queue, c)[0]) && Clean(queue)
          && Abs() == v.(queue := DropOn(v.queue, c, 1), reading := Note(v.reading, c, r.value))
      ensures var v := old(Abs());
        Waitable(v, [c]) && Quiet(v) && c in v.reading ==>
          && (r.Got? ==> Stepped(v, Abs(), c, r.value))
          && (r.Failed? ==> r.error in {ConnectionClosed, LibraryError} && Rest(v, c) == [])
    {
      ghost var v := Abs();
      if On(v.queue, c) != [] { QueuedHead(v, c); }
      r := GetNextFrameOnChannel(c, false);
      if r.Got? {
        ghost var w := Abs();
        reading := Note(reading, c, r.value);
        if Waitable(v, [c]) && Quiet(v) && c in v.reading { ReaderMovesOn(v, w, c, r.value, Abs()); }
      }
    }

    /** The broker has cancelled a consumer: it is forgotten, and channel c returned. */
    method ForgetConsumer(tag: string, c: ChannelId) returns (e: Error)
      modifies `channels, `lastUsed, `consumers
      ensures if tag !in old(consumers) then e == TagNotFound && Channels() == old(Channels())
        else e == (if c < |channels| then ConsumerCancelled(tag) else OutOfRange) && Channels() == DropConsumer(old(Channels()), tag, c)
    {
      if tag !in consumers {
        return TagNotFound;
      }
      consumers := consumers - {tag};
      if c >= |channels| {
        return OutOfRange;
      }
      ReturnChannel(c);
      return ConsumerCancelled(tag);
    }

    /** The message whose delivery has been read. */
    method ReadMessage(c: ChannelId, info: DeliverInfo) returns (r: Fetch<Envelope>)
      requires c != 0
      modifies this
      decreases |unread|, 8
      ensures |unread| <= old(|unread|) && |queue| + |unread| <= old(|queue| + |unread|)
      ensures !r.NoFrame? && (r.Got? ==> r.value.channel == c)
      ensures Ended(old(State()), State(), FailureOf(r))
      ensures var v := old(Abs()); BeginsQueued(v, c) && v.reading[c].info == info ==>
        r == Got(FirstQueued(v, c)) && Abs() == TakeQueued(v, c)
      ensures var v := old(Abs()); BeginsAtBroker(v, c) && v.reading[c].info == info ==>
        if r.Got? then Midway(v, Abs(), c, r.value, 0) else BreaksOff(v, Abs(), c, r.error)
    {
      var content := ReadContent(c);
      return if content.Failed? then Failed(content.error)
             else Got(Envelope(c, info, content.value.properties, content.value.body));
    }

    /** The method frame of a wait that began in the state start: a delivery is read, a cancelled consumer forgotten. */
    method TakeDelivery(frame: Frame, waited: seq<ChannelId>, timed: bool, ghost start: Conn) returns (r: Fetch<Envelope>)
      requires 0 !in waited && IsExpected(frame, waited, DeliverOrCancel)
      requires Ended(start, State(), None) && Seen(start.view, frame)
      modifies this
      decreases |unread|, 9
      ensures |unread| <= old(|unread|) && |queue| + |unread| <= old(|queue| + |unread|)
      ensures Ended(start, State(), FailureOf(r))
      ensures QueuedAlone(start.view, waited) && StartedQueued(start.view, old(Abs()), waited[0], frame) ==>
        r == Got(FirstQueued(start.view, waited[0])) && Abs() == TakeQueued(start.view, waited[0])
      ensures Consumable(start.view, waited) && Started(start.view, old(Abs()), frame.channel, frame) ==>
        Consumed(start.view, Abs(), waited, timed, r)
    {
      ghost var begun := State();
      var c := frame.channel;
      match frame.payload.m
      case Cancel(tag) =>
        var error := ForgetConsumer(tag, c);
        CancelEnds(start, begun, State(), c, tag, error);
        return Failed(error);
      case Deliver(info) =>
        r := ReadMessage(c, info);
        EndedThen(start, begun, State(), FailureOf(r));
        if Consumable(start.view, waited) && Started(start.view, begun.view, c, frame) {
          DeliveryRead(start.view, begun.view, Abs(), waited, timed, frame, r);
        }
    }

    /** Wait for a delivery on one of the channels and read it; a cancelled consumer gives up its channel. */
    method ConsumeMessageOnChannelInner(waited: seq<ChannelId>, timed: bool) returns (r: Fetch<Envelope>)
      requires 0 !in waited
      modifies this
      decreases |unread|, 10
      ensures |unread| <= old(|unread|) && |queue| + |unread| <= old(|queue| + |unread|)
      ensures Ended(old(State()), State(), FailureOf(r))
      ensures var v := old(Abs()); QueuedAlone(v, waited) ==>
        r == Got(FirstQueued(v, waited[0])) && Abs() == TakeQueued(v, waited[0])
      ensures Consumable(old(Abs()), waited) ==> Consumed(old(Abs()), Abs(), waited, timed, r)
    {
      ghost var v, start := Abs(), State();
      var deliver := AwaitDelivery(waited, timed);
      if !deliver.Got? {
        return if deliver.NoFrame? then NoFrame else Failed(deliver.error);
      }
      r := TakeDelivery(deliver.value, waited, timed, start);
    }

    /** The wait for the method frame that starts a message; a delivery starts the reader of its channel. */
    method AwaitDelivery(waited: seq<ChannelId>, timed: bool) returns (r: Fetch<Frame>)
      requires 0 !in waited
      modifies this
      decreases |unread|, 4
      ensures |unread| <= old(|unread|) && |queue| + |unread| <= old(|queue| + |unread|)
      ensures r.Got? ==> IsExpected(r.value, waited, DeliverOrCancel)
      ensures r.NoFrame? ==> timed
      ensures Ended(old(State()), State(), FailureOf(r)) && (r.Got? ==> Seen(old(Abs()), r.value))
      ensures QueuedAlone(old(Abs()), waited) ==> r.Got? && StartedQueued(old(Abs()), Abs(), waited[0], r.value)
      ensures Consumable(old(Abs()), waited) ==> DeliveryBegun(old(Abs()), Abs(), waited, timed, r)
    {
      ghost var v := Abs();
      r := GetMethodOnChannel(waited, DeliverOrCancel, timed);
      ghost var w := Abs();
      if r.Got? && r.value.payload.m.Deliver? {
        reading := reading[r.value.channel := AwaitHeader(r.value.payload.m.info)];
      }
      MethodFound(v, w, waited, timed, r);
    }

    /** Wait for a message on some channels: an assembled one first, then whatever arrives. */
    method ConsumeMessageOnChannel(waited: seq<ChannelId>, timed: bool) returns (r: Fetch<Envelope>)
      requires 0 !in waited
      modifies this
      ensures Ended(old(State()), State(), FailureOf(r))
      ensures Consumable(old(Abs()), waited) ==>
        HandedOut(old(Abs()), Abs(), waited, timed, r) && Channels() == old(Channels())
    {
      ghost var v := Abs();
      var i := 0;
      while i < |delivered| && delivered[i].channel !in waited
        invariant i <= |delivered|
        invariant forall k :: 0 <= k < i ==> delivered[k].channel !in waited
      {
        i := i + 1;
      }
      if i < |delivered| {
        var envelope := delivered[i];
        delivered := delivered[..i] + delivered[i + 1..];
        if Consumable(v, waited) { DeliveredHandedOut(v, i, Abs(), waited, timed); }
        return Got(envelope);
      }
      r := ConsumeMessageOnChannelInner(waited, timed);
      if Consumable(v, waited) { ConsumedHandedOut(v, Abs(), waited, timed, r); }
    }

    /** The next message of one consumer. */
    method ConsumeMessage(tag: string, timed: bool) returns (r: Fetch<Envelope>)
      requires tag in consumers ==> consumers[tag] != 0
      modifies this
      ensures !old(connected) ==> r == Failed(ConnectionClosed) && State() == old(State())
      ensures old(connected) && tag !in old(consumers) ==> r == Failed(TagNotFound) && State() == old(State())
      ensures old(connected) ==> Ended(old(State()), State(), FailureOf(r))
      ensures old(connected) && tag in old(consumers) ==>
        var v, c := old(Abs()), old(consumers)[tag]; Consumable(v, [c]) ==>
        && HandedOut(v, Abs(), [c], timed, r) && Channels() == old(Channels())
        && (!timed && Total(v, c) != [] ==> r.Got?)
    {
      if !connected {
        return Failed(ConnectionClosed);
      }
      if tag !in consumers {
        return Failed(TagNotFound);
      }
      r := ConsumeMessageOnChannel([consumers[tag]], timed);
    }

    /** The broker puts its reply into the stream. */
    method PutReply(c: ChannelId, reply: Frame, at: nat)
      requires Reaches(Abs().unread, at) && IsReply(reply) && reply.channel == c
      modifies `unread
      ensures var v := old(Abs());
        Abs() == v.(unread := v.unread[..at] + [reply] + v.unread[at..]) && Answered(v, Abs(), c, reply)
    {
      ghost var v := Abs();
      InsertedUpToClose(unread, at, reply);
      unread := unread[..at] + [reply] + unread[at..];
      assert v.unread == v.unread[..at] + v.unread[at..];
    }

    /**
     A request on a channel that is not in the middle of a message, and the wait for its reply.
     The reply and its place in the stream are the broker's choice.
     */
    method DoRpcOnChannel(c: ChannelId, asked: nat, ids: set<nat>, reply: Frame, at: nat) returns (r: Fetch<Frame>)
      requires c != 0 && Reaches(Abs().unread, at) && IsExpected(reply, [c], ReplyWith(ids))
      modifies this
      ensures !r.NoFrame?
      ensures var v := old(Abs());
        Ended(old(State()).(view := v.(unread := v.unread[..at] + [reply] + v.unread[at..]), sent := old(sent) + [Sent(c, asked)]),
          State(), FailureOf(r))
      ensures var v := old(Abs());
        Sound(v.(unread := v.unread[..at] + [reply] + v.unread[at..])) && Quiet(v) && v.reading == map[] ==>
          r.Got? && IsExpected(r.value, [c], ReplyWith(ids)) && StillOwed(v, Abs())
    {
      ghost var v := Abs();
      sent := sent + [Sent(c, asked)];
      PutReply(c, reply, at);
      ghost var v1 := Abs();
      r := GetMethodOnChannel([c], ReplyWith(ids), false);
      if Sound(v1) && Quiet(v) && v.reading == map[] {
        assert !Holds(v1.queue, [c], ReplyWith(ids));
        RequestAnswered(v, v1, Abs(), c, reply, ids, r);
      }
    }

    /**
     A request and the broker's answer: the reply comes at the first place from the given one on where the
     channel stands between two messages, and never if there is no such place.
     */
    method RequestOnChannel(c: ChannelId, x: Exchange) returns (r: Fetch<Frame>)
      requires IsCall(Request(c, x))
      modifies this
      ensures !r.NoFrame? && NothingNew(old(Abs()), Abs())
      ensures Concluded(old(State()).(sent := old(sent) + [Sent(c, x.asked)]), State(), FailureOf(r))
      ensures Consumable(old(Abs()), []) ==> Responded(old(Abs()), Abs(), c, x, r)
    {
      ghost var v, start := Abs(), State().(sent := sent + [Sent(c, x.asked)]);
      var i, frames := x.at, UpToClose(unread);
      while i <= |frames| && !(Reaches(frames, i) && PhaseAfter(Idle, On(queue, c) + On(frames[..i], c)) == Idle)
        invariant i >= x.at
        invariant forall k :: x.at <= k < i && Reaches(frames, k) ==> PhaseAfter(Idle, On(queue, c) + On(frames[..k], c)) != Idle
        decreases |frames| + 1 - i
      {
        i := i + 1;
      }
      if i <= |frames| {
        var reply := ReplyOn(x, c);
        if Consumable(v, []) { PlaceIsSound(v, c, i, reply); }
        r := DoRpcOnChannel(c, x.asked, x.ids, reply, i);
        ReplyCausesNothing(start, i, State(), reply, FailureOf(r));
      } else {
        sent := sent + [Sent(c, x.asked)];
        r := GetMethodOnChannel([c], ReplyWith(x.ids), false);
      }
    }

    method ReturnChannel(c: ChannelId)
      requires c < |channels|
      modifies `channels, `lastUsed
      ensures channels == old(channels)[c := Open] && lastUsed == c
    {
      channels := channels[c := Open];
      lastUsed := c;
    }

    method ServeOne(call: Call) returns (o: Response)
      requires IsCall(call)
      modifies this
      ensures Concluded(old(State()).(sent := old(sent) + Asked(call)), State(), FailureIn(o))
      ensures Consumable(old(Abs()), []) ==>
        Served(old(Abs()), Abs(), call, o) && Channels() == old(Channels()) && sent == old(sent) + Asked(call) + Farewell(o)
      ensures Consumable(old(Abs()), []) && FailureIn(o).None? ==> Consumable(Abs(), [])
    {
      match call
      case Wait(waited, timed) =>
        var r := ConsumeMessageOnChannel(waited, timed);
        o := Waited(r);
      case Request(c, x) =>
        var r := RequestOnChannel(c, x);
        o := Requested(r);
    }

    /**
     Any sequence of waits and requests, by any choice of channels, deadlines and replies, up to the first failure:
     each channel's envelopes come out in order, none lost and none twice, and every failure has its cause.
     */
    method Serve(calls: seq<Call>) returns (responses: seq<Response>, ghost views: seq<View>)
      requires forall i :: 0 <= i < |calls| ==> IsCall(calls[i])
      modifies this
      ensures |views| == |responses| + 1 && views[0] == old(Abs()) && views[|responses|] == Abs()
      ensures forall i :: 0 <= i < |responses| && FailureIn(responses[i]).Some? ==> i == |responses| - 1
      ensures |responses| == |calls| || (0 < |responses| < |calls| && FailureIn(responses[|responses| - 1]).Some?)
      ensures Consumable(old(Abs()), []) ==>
        && RunsThrough(views, calls, responses)
        && Channels() == old(Channels())
        && Told(old(sent), sent, calls, responses)
        && (forall c :: c != 0 ==> EnvelopesOn(Returned(responses), c) <= Total(old(Abs()), c))
        && (forall o :: o in responses && FailureIn(o).Some? ==> Fails(old(Abs()), Abs(), FailureIn(o).value))
        && ((forall o :: o in responses ==> FailureIn(o).None?) ==> Accounted(old(Abs()), Abs(), Returned(responses)))
    {
      ghost var v := Abs();
      responses, views := [], [v];
      for i := 0 to |calls|
        invariant |responses| == i && |views| == i + 1 && views[0] == v && views[i] == Abs()
        invariant forall o :: o in responses ==> FailureIn(o).None?
        invariant Consumable(v, []) ==> ServedWell(v, Abs(), views, calls, responses) && Channels() == old(Channels())
        invariant Consumable(v, []) ==> Told(old(sent), sent, calls, responses)
      {
        ghost var x := Abs();
        ghost var told := sent;
        var o := ServeOne(calls[i]);
        if Consumable(v, []) {
          ServedMore(v, x, Abs(), views, calls, responses, o);
          ToldMore(old(sent), told, sent, calls, responses, o);
        }
        responses, views := responses + [o], views + [Abs()];
        if FailureIn(o).Some? {
          return;
        }
      }
    }

    // ---------------------------------------------------------------------------------
    // Channels and consumers
    // ---------------------------------------------------------------------------------

    method FindState(s: ChannelState) returns (i: nat)
      ensures i == FirstIn(channels, s)
    {
      i := 0;
      while i < |channels| && channels[i] != s
        invariant i <= |channels|
        invariant FirstIn(channels, s) == i + FirstIn(channels[i..], s)
      {
        assert channels[i..][1..] == channels[i + 1..];
        i := i + 1;
      }
      assert i == |channels| ==> channels[i..] == [];
    }

    /** The number for a new channel: a closed one, or the next one the broker allows. */
    method GetNextChannelId(channelMax: nat) returns (r: Acquired)
      modifies `channels
      ensures var i := FirstIn(old(channels), ChannelState.Closed);
        if i == |old(channels)| && Limit(channelMax) < |old(channels)| then r == TooMany && channels == old(channels)
        else r == Acquired(i) && channels == if i == |old(channels)| then old(channels) + [ChannelState.Closed] else old(channels)
    {
      var i := FindState(ChannelState.Closed);
      if i == |channels| {
        var max := if channelMax == 0 then 65535 else channelMax;
        if max < |channels| {
          return TooMany;
        }
        channels := channels + [ChannelState.Closed];
      }
      return Acquired(i);
    }

    /** Two requests on one channel, the second only after the first has been answered. */
    method RequestTwice(c: ChannelId, x: Exchange, y: Exchange) returns (r: Fetch<Frame>)
      requires IsCall(Request(c, x)) && IsCall(Request(c, y))
      modifies this
      ensures !r.NoFrame? && NothingNew(old(Abs()), Abs())
      ensures AskedInTurn(old(State()), State(), [Sent(c, x.asked), Sent(c, y.asked)], FailureOf(r))
      ensures Consumable(old(Abs()), []) ==> WellRequested(old(Abs()), Abs(), r)
    {
      ghost var start, pair := State(), [Sent(c, x.asked), Sent(c, y.asked)];
      r := RequestOnChannel(c, x);
      assert pair[..1] == [Sent(c, x.asked)] && pair[..2] == pair;
      if r.Failed? {
        return;
      }
      ghost var between := State();
      r := RequestOnChannel(c, y);
      ghost var asked := start.sent + pair;
      assert between.sent + [Sent(c, y.asked)] == asked;
      ConcludedThen(start.(sent := asked), between.(sent := asked), State(), FailureOf(r));
    }

    /** Open a channel that is not open yet, with confirmations. */
    method CreateNewChannel(channelMax: nat, openAt: nat, confirmAt: nat) returns (r: Fetch<ChannelId>)
      requires channels != [] && channels[0] == Used
      modifies this
      ensures !r.NoFrame?
      ensures r.Got? ==>
        var (u, a) := Create(old(Channels()), channelMax, true);
        && a == Acquired(r.value) && GoneOn(old(State()), State()) && sent == old(sent) + Opening(a.id)
        && Channels() == u.(channels := u.channels[a.id := Open])
      ensures r.Failed? ==> NotCreated(old(State()), State(), channelMax, r.error)
      ensures Consumable(old(Abs()), []) ==>
        if r.Got? then StillOwed(old(Abs()), Abs()) else r.error == TooManyChannels || Fails(old(Abs()), Abs(), r.error)
    {
      var a := GetNextChannelId(channelMax);
      if a.TooMany? {
        return Failed(TooManyChannels);
      }
      ghost var start := State();
      var response := RequestTwice(a.id,
        Exchange(CHANNEL_OPEN, {CHANNEL_OPEN_OK}, CHANNEL_OPEN_OK, openAt),
        Exchange(CONFIRM_SELECT, {CONFIRM_SELECT_OK}, CONFIRM_SELECT_OK, confirmAt));
      if response.Failed? {
        return Failed(response.error);
      }
      assert Opening(a.id)[..2] == Opening(a.id);
      channels := channels[a.id := Open];
      return Got(a.id);
    }

    /** The last used channel if it is open, else the first open one, else a new one. */
    method GetChannel(channelMax: nat, openAt: nat, confirmAt: nat) returns (r: Fetch<ChannelId>)
      requires lastUsed < |channels| && channels[0] == Used
      modifies this
      ensures !r.NoFrame?
      ensures r.Got? ==>
        && (Channels(), Acquired(r.value)) == Acquire(old(Channels()), channelMax, true)
        && GoneOn(old(State()), State()) && sent == old(sent) + OpeningFor(old(Channels()))
      ensures r.Failed? ==> NeedsNew(old(Channels())) && NotCreated(old(State()), State(), channelMax, r.error)
      ensures Consumable(old(Abs()), []) ==>
        if r.Got? then StillOwed(old(Abs()), Abs()) else r.error == TooManyChannels || Fails(old(Abs()), Abs(), r.error)
    {
      Unpadded(sent);
      if channels[lastUsed] == Open {
        channels := channels[lastUsed := Used];
        return Got(lastUsed);
      }
      var i := FindState(Open);
      if i == |channels| {
        ghost var u := Create(Channels(), channelMax, true).0;
        r := CreateNewChannel(channelMax, openAt, confirmAt);
        if r.Got? {
          channels := channels[r.value := Used];
          assert channels == u.channels;
        }
        return;
      }
      channels := channels[i := Used];
      return Got(i);
    }

    /** Start a consumer on channel c; the map keeps an existing entry of the same tag. */
    method StartConsumer(tag: string, c: ChannelId, qosAt: nat, consumeAt: nat) returns (r: Fetch<string>)
      requires c != 0
      modifies this
      ensures !r.NoFrame? && (r.Failed? ==> AskedInTurn(old(State()), State(), SetUp(c), FailureOf(r)))
      ensures r.Got? ==>
        && connected == old(connected) && sent == old(sent) + SetUp(c)
        && Channels() == AddConsumer(old(Channels()), tag, c)
      ensures Consumable(old(Abs()), []) ==>
        if r.Got? then StillOwed(old(Abs()), Abs()) else Channels() == old(Channels())
    {
      var response := RequestTwice(c,
        Exchange(BASIC_QOS, {BASIC_QOS_OK}, BASIC_QOS_OK, qosAt),
        Exchange(BASIC_CONSUME, {BASIC_CONSUME_OK}, BASIC_CONSUME_OK, consumeAt));
      if response.Failed? {
        return Failed(response.error);
      }
      assert SetUp(c)[..2] == SetUp(c);
      if tag !in consumers {
        consumers := consumers[tag := c];
      }
      return Got(tag);
    }

    /** Get a channel and start a consumer on it. */
    method ConsumeOnNew(tag: string, channelMax: nat, at: (nat, nat, nat, nat)) returns (r: Fetch<string>)
      requires Valid(Channels(), channelMax)
      modifies this
      ensures r.Got? ==>
        var a := Acquire(old(Channels()), channelMax, true).1;
        && a.Acquired? && connected == old(connected) && sent == old(sent) + OpeningFor(old(Channels())) + SetUp(a.id)
        && Channels() == Step(old(Channels()), channelMax, Op.Consume(tag, true, Replied))
      ensures !r.Got? ==> r.Failed? && NotConsumed(old(State()), State(), channelMax, r.error)
      ensures Consumable(old(Abs()), []) ==> Valid(Channels(), channelMax)
      ensures Consumable(old(Abs()), []) && r.Got? ==> StillOwed(old(Abs()), Abs())
    {
      ghost var start := State();
      AcquireIsFresh(Channels(), channelMax, true);
      AcquireValid(Channels(), channelMax, true);
      AcquireValid(Channels(), channelMax, false);
      var a := GetChannel(channelMax, at.0, at.1);
      if a.Failed? {
        return Failed(a.error);
      }
      SettleFreeValid(Channels(), channelMax, a.value, Replied, tag);
      ghost var acquired := State();
      r := StartConsumer(tag, a.value, at.2, at.3);
      if r.Failed? { AskedEarlier(start.view, acquired, State(), SetUp(a.value), FailureOf(r)); }
    }

    /**
     Start a consumer on a channel of its own. The tag is the one in the reply of the broker; at holds the places of
     the replies to the two requests that open a channel and the two on it.
     */
    method Consume(tag: string, channelMax: nat, at: (nat, nat, nat, nat)) returns (r: Fetch<string>)
      requires Valid(Channels(), channelMax)
      modifies this
      ensures !old(connected) ==> r == Failed(ConnectionClosed) && State() == old(State())
      ensures old(connected) && r.Got? ==>
        var a := Acquire(old(Channels()), channelMax, true).1;
        && a.Acquired? && connected
        && sent == old(sent)
          + (if NeedsNew(old(Channels())) then [Sent(a.id, CHANNEL_OPEN), Sent(a.id, CONFIRM_SELECT)] else [])
          + [Sent(a.id, BASIC_QOS), Sent(a.id, BASIC_CONSUME)]
        && Channels() == Step(old(Channels()), channelMax, Op.Consume(tag, true, Replied))
      ensures old(connected) && !r.Got? ==> r.Failed? && NotConsumed(old(State()), State(), channelMax, r.error)
      ensures old(sent) <= sent && Prepared(sent[|old(sent)|..])
      ensures Consumable(old(Abs()), []) ==> Valid(Channels(), channelMax)
      ensures Consumable(old(Abs()), []) && r.Got? ==> StillOwed(old(Abs()), Abs())
    {
      if !connected {
        return Failed(ConnectionClosed);
      }
      ghost var start := State();
      r := ConsumeOnNew(tag, channelMax, at);
      if r.Got? {
        ConsumedPrepared(start.sent, Acquire(start.table, channelMax, true).1.id, NeedsNew(start.table));
      } else {
        NotConsumedPrepared(start, State(), channelMax, r.error);
      }
    }

    /** A request on a consumer's channel: qos and recover. */
    method RequestForConsumer(tag: string, x: Exchange) returns (r: Fetch<Frame>)
      requires x.id in x.ids && (tag in consumers ==> consumers[tag] != 0)
      modifies this
      ensures !old(connected) ==> r == Failed(ConnectionClosed) && State() == old(State())
      ensures old(connected) && tag !in old(consumers) ==> r == Failed(TagNotFound) && State() == old(State())
      ensures old(connected) && tag in old(consumers) ==>
        Concluded(old(State()).(sent := old(sent) + [Sent(old(consumers)[tag], x.asked)]), State(), FailureOf(r))
      ensures old(connected) && tag in old(consumers) && Consumable(old(Abs()), []) ==> WellRequested(old(Abs()), Abs(), r)
    {
      if !connected {
        return Failed(ConnectionClosed);
      }
      if tag !in consumers {
        return Failed(TagNotFound);
      }
      r := RequestOnChannel(consumers[tag], x);
    }

    /** Stop a consumer and give up its channel. */
    method CancelConsumer(tag: string, channelMax: nat, at: nat) returns (r: Fetch<()>)
      requires Valid(Channels(), channelMax)
      modifies this
      ensures !old(connected) || tag !in old(consumers) ==> r.Failed? && State() == old(State())
      ensures old(connected) && tag in old(consumers) ==>
        var asked := old(sent) + [Sent(old(consumers)[tag], BASIC_CANCEL)];
        if r.Got? then connected && sent == asked && Channels() == Step(old(Channels()), channelMax, Op.CancelConsumer(tag, Replied))
        else Concluded(old(State()).(sent := asked), State(), FailureOf(r))
      ensures Consumable(old(Abs()), []) ==> Valid(Channels(), channelMax)
      ensures Consumable(old(Abs()), []) && r.Got? ==> StillOwed(old(Abs()), Abs())
    {
      var response := RequestForConsumer(tag, Exchange(BASIC_CANCEL, {BASIC_CANCEL_OK}, BASIC_CANCEL_OK, at));
      if response.Failed? {
        return Failed(response.error);
      }
      var c := consumers[tag];
      DropValid(Channels(), channelMax, tag, c);
      consumers := consumers - {tag};
      ReturnChannel(c);
      return Got(());
    }
  }
}
