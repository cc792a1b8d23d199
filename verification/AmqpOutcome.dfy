/**
 How a call on the connection ends, and what it has done to the stream, the queue and the channel table
 by then, whatever the stream holds.
 */
module AmqpOutcome {
  import opened AmqpFrames
  import opened AmqpView
  import opened ChannelTable
  import opened Sequences
  import opened Wrappers

  datatype Error =
    | LibraryError | ConnectionClosed | ChannelClosed | ProtocolViolation | UnexpectedFrame
    | BodyOverrun | LogicError | OutOfRange | TooManyChannels | TagNotFound
    | ConsumerCancelled(tag: string)

  /** What a timed read can end in; NoFrame is the source's `false`, Failed its exceptions. */
  datatype Fetch<T> = Got(value: T) | NoFrame | Failed(error: Error)

  function FailureOf<T>(r: Fetch<T>): Option<Error> {
    if r.Failed? then Some(r.error) else None
  }

  // Method numbers of AMQP 0-9-1: the class in the upper half, the method in the lower one.
  const CONNECTION_CLOSE_OK: nat := 0x000A_0033
  const CHANNEL_CLOSE_OK: nat := 0x0014_0029
  const CHANNEL_OPEN: nat := 0x0014_000A
  const CHANNEL_OPEN_OK: nat := 0x0014_000B
  const CONFIRM_SELECT: nat := 0x0055_000A
  const CONFIRM_SELECT_OK: nat := 0x0055_000B
  const BASIC_QOS: nat := 0x003C_000A
  const BASIC_QOS_OK: nat := 0x003C_000B
  const BASIC_CONSUME: nat := 0x003C_0014
  const BASIC_CONSUME_OK: nat := 0x003C_0015
  const BASIC_CANCEL: nat := 0x003C_001E
  const BASIC_CANCEL_OK: nat := 0x003C_001F

  /** A method frame sent to the broker. */
  datatype Sent = Sent(channel: ChannelId, number: nat)

  /** The state of the connection object; sent is what the broker has been told so far. */
  datatype Conn = Conn(view: View, table: Table, connected: bool, sent: seq<Sent>)

  predicate IsMethod(f: Frame, m: Method) {
    f.payload == MethodFrame(m)
  }

  predicate IsConnectionClose(f: Frame) {
    f.channel == 0 && IsMethod(f, ConnectionClose)
  }

  /** What is read of a stream: nothing behind the first connection.close. */
  function UpToClose(fs: seq<Frame>): (r: seq<Frame>)
    ensures |r| <= |fs|
  {
    if fs == [] then [] else if IsConnectionClose(fs[0]) then [fs[0]] else [fs[0]] + UpToClose(fs[1..])
  }

  /** The first i frames do not close the connection. */
  predicate Reaches(fs: seq<Frame>, i: nat) {
    i <= |fs| && forall k :: 0 <= k < i ==> !IsConnectionClose(fs[k])
  }

  /** A frame that comes before the connection.close is read. */
  lemma {:induction false} InsertedUpToClose(fs: seq<Frame>, i: nat, f: Frame)
    requires Reaches(UpToClose(fs), i) && !IsConnectionClose(f)
    ensures i <= |fs| && UpToClose(fs[..i] + [f] + fs[i..]) == UpToClose(fs)[..i] + [f] + UpToClose(fs)[i..]
  {
    if i == 0 {
      assert fs[..0] + [f] + fs[0..] == [f] + fs && ([f] + fs)[1..] == fs;
      assert UpToClose(fs)[0..] == UpToClose(fs);
    } else {
      var x, rest := fs[0], fs[1..];
      assert !IsConnectionClose(x) by {
        assert UpToClose(fs)[0] == x;
      }
      var read := UpToClose(rest);
      assert UpToClose(fs) == [x] + read;
      assert Reaches(read, i - 1) by {
        assert forall k :: 0 <= k < i - 1 ==> read[k] == UpToClose(fs)[k + 1];
      }
      InsertedUpToClose(rest, i - 1, f);
      assert fs == [x] + rest;
      InsertedBehind(x, rest, i, f);
      InsertedBehind(x, read, i, f);
      assert ([x] + (rest[..i - 1] + [f] + rest[i - 1..]))[1..] == rest[..i - 1] + [f] + rest[i - 1..];
    }
  }

  ghost predicate Seen(v: View, f: Frame) {
    f in v.queue || f in v.unread
  }

  /** The stream is only read, and what is queued comes from it. */
  ghost predicate ReadOn(v: View, w: View) {
    && (forall f :: f in w.unread ==> f in v.unread)
    && (forall f :: f in w.queue ==> Seen(v, f))
  }

  /** The stream ends with the broker's connection.close. */
  ghost predicate ClosesConnection(v: View) {
    v.unread != [] && IsConnectionClose(v.unread[|v.unread| - 1])
  }

  /** A channel.close for channel c has been met. */
  ghost predicate MetClose(v: View, t: Table, u: Table, c: ChannelId) {
    u == Closing(t, c) && exists f :: Seen(v, f) && f.channel == c && IsMethod(f, ChannelClose)
  }

  /** The broker's cancel of a consumer has been met. */
  ghost predicate MetCancel(v: View, t: Table, u: Table, tag: string) {
    tag in t.consumers && exists f :: Seen(v, f) && IsMethod(f, Cancel(tag)) && u == DropConsumer(t, tag, f.channel)
  }

  /**
   What a call that ends in a failure, or in none, leaves of the channel table, what it answers to the broker, and
   the cause of the failure in the view v.
   */
  ghost predicate Caused(v: View, a: Conn, b: Conn, failure: Option<Error>) {
    match failure
    case Some(ConnectionClosed) =>
      && b.table == a.table && b.sent == a.sent + [Sent(0, CONNECTION_CLOSE_OK)]
      && ClosesConnection(v) && b.view.unread == []
    case Some(LibraryError) => b.table == a.table && b.sent == a.sent && !ClosesConnection(v) && b.view.unread == []
    case Some(ChannelClosed) => exists c :: MetClose(v, a.table, b.table, c) && b.sent == a.sent + [Sent(c, CHANNEL_CLOSE_OK)]
    case Some(ConsumerCancelled(tag)) => MetCancel(v, a.table, b.table, tag) && b.sent == a.sent
    case Some(OutOfRange) =>
      b.sent == a.sent && ((exists c :: MetClose(v, a.table, b.table, c)) || exists tag :: MetCancel(v, a.table, b.table, tag))
    case _ => b.table == a.table && b.sent == a.sent
  }

  /** What a call has done to the object apart from the stream. */
  ghost predicate Concluded(a: Conn, b: Conn, failure: Option<Error>) {
    && (b.connected <==> a.connected && failure != Some(ConnectionClosed))
    && (ClosesConnection(b.view) <==> ClosesConnection(a.view) && failure != Some(ConnectionClosed))
    && Caused(a.view, a, b, failure)
  }

  /** From the state a to the state b, by reading only. */
  ghost predicate Ended(a: Conn, b: Conn, failure: Option<Error>) {
    ReadOn(a.view, b.view) && Concluded(a, b, failure)
  }

  /** Frames other than replies come from the view v. */
  ghost predicate NothingNew(v: View, w: View) {
    && (forall f :: Seen(w, f) && !IsReply(f) ==> Seen(v, f))
    && (forall f :: f in w.unread && !IsReply(f) ==> f in v.unread)
  }

  /** What happened before without a failure does not change the cause of one. */
  lemma ConcludedThen(a: Conn, b: Conn, c: Conn, failure: Option<Error>)
    requires NothingNew(a.view, b.view) && Concluded(a, b, None) && Concluded(b, c, failure)
    ensures Concluded(a, c, failure)
  {
    CausedEarlier(a.view, b.view, b, c, failure);
  }

  lemma CausedEarlier(v: View, x: View, a: Conn, b: Conn, failure: Option<Error>)
    requires NothingNew(v, x) && (ClosesConnection(v) <==> ClosesConnection(x)) && Caused(x, a, b, failure)
    ensures Caused(v, a, b, failure)
  {
    assert forall c :: MetClose(x, a.table, b.table, c) ==> MetClose(v, a.table, b.table, c);
    assert forall tag :: MetCancel(x, a.table, b.table, tag) ==> MetCancel(v, a.table, b.table, tag);
  }

  lemma EndedThen(a: Conn, b: Conn, c: Conn, failure: Option<Error>)
    requires Ended(a, b, None) && Ended(b, c, failure)
    ensures Ended(a, c, failure)
  {
    assert forall f :: Seen(b.view, f) ==> Seen(a.view, f);
    ConcludedThen(a, b, c, failure);
  }

  /** The broker's cancel of a consumer, met among the frames read, ends a call. */
  lemma CancelEnds(a: Conn, x: Conn, b: Conn, c: ChannelId, tag: string, error: Error)
    requires Ended(a, x, None) && Seen(a.view, Frame(c, MethodFrame(Cancel(tag))))
    requires if tag !in x.table.consumers then b == x && error == TagNotFound
             else b == x.(table := DropConsumer(x.table, tag, c)) && error in {ConsumerCancelled(tag), OutOfRange}
    ensures Ended(a, b, Some(error))
  {
    assert tag in x.table.consumers ==> MetCancel(a.view, a.table, b.table, tag);
  }

  /** The reply to a request is no cause of a failure. */
  lemma ReplyCausesNothing(a: Conn, i: nat, b: Conn, reply: Frame, failure: Option<Error>)
    requires Reaches(a.view.unread, i) && IsReply(reply)
    requires Ended(a.(view := a.view.(unread := a.view.unread[..i] + [reply] + a.view.unread[i..])), b, failure)
    ensures Concluded(a, b, failure) && NothingNew(a.view, b.view)
  {
    var x := a.view.(unread := a.view.unread[..i] + [reply] + a.view.unread[i..]);
    assert forall f :: Seen(x, f) && !IsReply(f) ==> Seen(a.view, f);
    CausedEarlier(a.view, x, a, b, failure);
  }

  /** Every failure is one step of the channel table, or none. */
  lemma EndedIsStep(a: Conn, b: Conn, failure: Option<Error>, channelMax: nat)
    requires Concluded(a, b, failure) && Valid(a.table, channelMax)
    ensures b.table == a.table || exists op: Op :: (op.CloseMet? || op.CancelledByBroker?) && b.table == Step(a.table, channelMax, op)
  {
    if c :| MetClose(a.view, a.table, b.table, c) {
      assert b.table == Step(a.table, channelMax, CloseMet(c));
    } else if tag :| MetCancel(a.view, a.table, b.table, tag) {
      var f :| Seen(a.view, f) && IsMethod(f, Cancel(tag)) && b.table == DropConsumer(a.table, tag, f.channel);
      assert b.table == Step(a.table, channelMax, CancelledByBroker(tag, f.channel));
    }
  }
}
