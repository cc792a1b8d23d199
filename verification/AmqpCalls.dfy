/**
 What a call owes its client: waits, requests, and sequences of both.
 */
module AmqpCalls {
  import opened AmqpFrames
  import opened AmqpView
  import opened AmqpOutcome
  import opened Wrappers
  import opened ChannelTable
  import opened Sequences

  datatype Content = Content(properties: string, body: seq<byte>)

  /** Between calls: no reader is in the middle of a message and no reply is outstanding. */
  ghost predicate Consumable(v: View, channels: seq<ChannelId>) {
    Sound(v) && Quiet(v) && v.reading == map[] && 0 !in channels
  }

  /** How a call on a well-formed stream fails: the stream has ended, with the broker's connection.close or without. */
  ghost predicate Fails(v: View, w: View, error: Error) {
    w.unread == [] && error == if ClosesConnection(v) then ConnectionClosed else LibraryError
  }

  /**
   Why a wait may meet the end of the stream: it has no deadline and no channel has a message to come, or it is
   in the middle of a message that never ends.
   */
  ghost predicate Exhausted(v: View, channels: seq<ChannelId>, timed: bool) {
    || (!timed && forall c :: c in channels ==> MessagesLeft(v, c) == [])
    || exists c :: c in channels && MessagesLeft(v, c) == [] && Rest(v, c) != []
  }

  /** What a wait for a message does to the state, for each of its outcomes. */
  ghost predicate Consumed(v: View, w: View, channels: seq<ChannelId>, timed: bool, r: Fetch<Envelope>) {
    match r
    case Got(e) =>
      && Sound(w) && Quiet(w) && w.reading == map[]
      && e.channel in channels
      && EnvelopesOn(w.delivered, e.channel) == EnvelopesOn(v.delivered, e.channel)
      && MessagesLeft(v, e.channel) == [e] + MessagesLeft(w, e.channel)
      && (forall d :: d != 0 && d != e.channel ==> Conserved(v, w, d))
    case NoFrame =>
      && timed
      && Sound(w) && Quiet(w) && w.reading == map[]
      && (forall c :: c in channels ==> On(v.queue, c) == [])
      && (forall d :: d != 0 ==> Conserved(v, w, d))
    case Failed(error) =>
      Fails(v, w, error) && Exhausted(v, channels, timed && error == LibraryError)
  }

  /** Nothing is owed any more, or a message that never ends. */
  ghost predicate NothingOwed(v: View, channels: seq<ChannelId>, timed: bool) {
    || (!timed && forall c :: c in channels ==> Total(v, c) == [])
    || exists c :: c in channels && Total(v, c) == [] && Rest(v, c) != []
  }

  /** What one call for a message hands out, and what it leaves for every channel. */
  ghost predicate HandedOut(v: View, w: View, channels: seq<ChannelId>, timed: bool, r: Fetch<Envelope>) {
    match r
    case Got(e) =>
      && Consumable(w, channels)
      && e.channel in channels
      && Total(v, e.channel) == [e] + Total(w, e.channel)
      && (forall d :: d != 0 && d != e.channel ==> Total(w, d) == Total(v, d))
    case NoFrame =>
      && timed
      && Consumable(w, channels)
      && (forall c :: c in channels ==> EnvelopesOn(v.delivered, c) == [] && On(v.queue, c) == [])
      && (forall d :: d != 0 ==> Total(w, d) == Total(v, d))
    case Failed(error) =>
      Fails(v, w, error) && NothingOwed(v, channels, timed && error == LibraryError)
  }

  lemma {:induction false} NoEnvelopesOn(es: seq<Envelope>, c: ChannelId)
    requires forall e :: e in es ==> e.channel != c
    ensures EnvelopesOn(es, c) == []
  {
    if es != [] {
      NoEnvelopesOn(es[1..], c);
    }
  }

  lemma OneEnvelopeOn(e: Envelope, d: ChannelId)
    ensures EnvelopesOn([e], d) == if d == e.channel then [e] else []
  {
    assert [e][1..] == [];
  }

  lemma EnvelopesOnParts(a: seq<Envelope>, e: Envelope, b: seq<Envelope>, d: ChannelId)
    ensures EnvelopesOn(a + [e] + b, d) ==
      EnvelopesOn(a, d) + (if d == e.channel then [e] else []) + EnvelopesOn(b, d)
    ensures EnvelopesOn(a + b, d) == EnvelopesOn(a, d) + EnvelopesOn(b, d)
  {
    EnvelopesOnConcat(a + [e], b, d);
    EnvelopesOnConcat(a, [e], d);
    EnvelopesOnConcat(a, b, d);
    OneEnvelopeOn(e, d);
  }

  lemma EnvelopeDropped(a: seq<Envelope>, e: Envelope, b: seq<Envelope>, d: ChannelId)
    requires d == e.channel ==> EnvelopesOn(a, d) == []
    ensures EnvelopesOn(a + [e] + b, d) == (if d == e.channel then [e] else []) + EnvelopesOn(a + b, d)
  {
    EnvelopesOnParts(a, e, b, d);
    if d == e.channel {
      Unpadded([e]);
    } else {
      Unpadded(EnvelopesOn(a, d));
      Unpadded(EnvelopesOn(a + b, d));
    }
  }

  /** Removing the i-th delivered envelope, seen from one channel. */
  lemma EnvelopeRemoved(es: seq<Envelope>, i: nat, d: ChannelId)
    requires i < |es| && (d == es[i].channel ==> forall k :: 0 <= k < i ==> es[k].channel != d)
    ensures EnvelopesOn(es, d) ==
      (if d == es[i].channel then [es[i]] else []) + EnvelopesOn(es[..i] + es[i + 1..], d)
  {
    assert es == es[..i] + [es[i]] + es[i + 1..];
    if d == es[i].channel {
      NoEnvelopesOn(es[..i], d);
    }
    EnvelopeDropped(es[..i], es[i], es[i + 1..], d);
  }

  lemma DeliveredHandedOut(v: View, i: nat, w: View, channels: seq<ChannelId>, timed: bool)
    requires Consumable(v, channels) && i < |v.delivered| && v.delivered[i].channel in channels
    requires forall k :: 0 <= k < i ==> v.delivered[k].channel !in channels
    requires w == v.(delivered := v.delivered[..i] + v.delivered[i + 1..])
    ensures HandedOut(v, w, channels, timed, Got(v.delivered[i]))
  {
    var e := v.delivered[i];
    forall d ensures PhaseOf(w, d) == PhaseOf(v, d) && MessagesLeft(w, d) == MessagesLeft(v, d)
      ensures WellFormedOn(v, d) ==> WellFormedOn(w, d)
    {
    }
    forall d ensures Total(v, d) == if d == e.channel then [e] + Total(w, d) else Total(w, d) {
      EnvelopeRemoved(v.delivered, i, d);
      Unpadded(Total(w, d));
      Unpadded(EnvelopesOn(w.delivered, d));
      Associates([e], EnvelopesOn(w.delivered, d), MessagesLeft(w, d));
    }
  }

  lemma ConsumedHandedOut(v: View, w: View, channels: seq<ChannelId>, timed: bool, r: Fetch<Envelope>)
    requires Consumable(v, channels) && Consumed(v, w, channels, timed, r)
    requires forall e :: e in v.delivered ==> e.channel !in channels
    ensures HandedOut(v, w, channels, timed, r)
  {
    forall c | c in channels ensures EnvelopesOn(v.delivered, c) == [] {
      NoEnvelopesOn(v.delivered, c);
    }
    match r
    case Got(e) =>
      var c := e.channel;
      assert EnvelopesOn(w.delivered, c) == EnvelopesOn(v.delivered, c) == [];
      assert Total(v, c) == MessagesLeft(v, c) && Total(w, c) == MessagesLeft(w, c);
      forall d | d != 0 && d != c ensures Total(w, d) == Total(v, d) {
        assert Conserved(v, w, d);
      }
    case NoFrame =>
      forall d | d != 0 ensures Total(w, d) == Total(v, d) {
        assert Conserved(v, w, d);
      }
    case Failed(error) =>
      assert forall c :: c in channels && MessagesLeft(v, c) == [] ==> Total(v, c) == [];
  }

  ghost predicate Accounted(v: View, w: View, returned: seq<Envelope>) {
    forall c :: c != 0 ==> EnvelopesOn(returned, c) + Total(w, c) == Total(v, c)
  }

  // -------------------------------------------------------------------------------------
  // Sequences of calls
  // -------------------------------------------------------------------------------------

  /** A request: its method, the replies it waits for, the one the broker sends, and its earliest place in the stream. */
  datatype Exchange = Exchange(asked: nat, ids: set<nat>, id: nat, at: nat)

  function ReplyOn(x: Exchange, c: ChannelId): Frame {
    Frame(c, MethodFrame(Reply(x.id)))
  }

  /** What a client does: wait for a message on some channels, or make a request on one. */
  datatype Call = Wait(channels: seq<ChannelId>, timed: bool) | Request(channel: ChannelId, exchange: Exchange)

  datatype Response = Waited(message: Fetch<Envelope>) | Requested(reply: Fetch<Frame>)

  /** What a call sends to the broker. */
  function Asked(call: Call): seq<Sent> {
    match call
    case Wait(_, _) => []
    case Request(c, x) => [Sent(c, x.asked)]
  }

  function AskedAll(calls: seq<Call>): seq<Sent> {
    if calls == [] then [] else AskedAll(calls[..|calls| - 1]) + Asked(calls[|calls| - 1])
  }

  predicate IsCall(call: Call) {
    match call
    case Wait(channels, _) => 0 !in channels
    case Request(c, x) => c != 0 && x.id in x.ids
  }

  /** Behind the first i frames of the stream, channel c stands between two messages. */
  predicate IdleAt(v: View, c: ChannelId, i: nat)
    requires i <= |v.unread|
  {
    PhaseAfter(PhaseOf(v, c), On(v.queue, c) + On(v.unread[..i], c)) == Idle
  }

  /** From some place on the stream has no room for a reply: it breaks off in the middle of a message of the channel. */
  ghost predicate NoPlace(v: View, c: ChannelId, at: nat) {
    forall i :: at <= i && Reaches(v.unread, i) ==> !IdleAt(v, c, i)
  }

  /** What a request does, for each of its outcomes. */
  ghost predicate Responded(v: View, w: View, c: ChannelId, x: Exchange, r: Fetch<Frame>) {
    match r
    case Got(f) =>
      && IsExpected(f, [c], ReplyWith(x.ids))
      && StillOwed(v, w)
    case NoFrame => false
    case Failed(error) => Fails(v, w, error) && NoPlace(v, c, x.at)
  }

  /** Every channel is still owed what it was owed. */
  ghost predicate StillOwed(v: View, w: View) {
    Consumable(w, []) && forall d :: d != 0 ==> Total(w, d) == Total(v, d)
  }

  /** Some requests have been answered, or the connection has ended. */
  ghost predicate WellRequested<T>(v: View, w: View, r: Fetch<T>) {
    if r.Got? then StillOwed(v, w)
    else r.Failed? && Fails(v, w, r.error)
  }

  ghost predicate Served(v: View, w: View, call: Call, o: Response) {
    && (FailureIn(o).None? ==> (ClosesConnection(w) <==> ClosesConnection(v)))
    && match (call, o)
       case (Wait(channels, timed), Waited(r)) => HandedOut(v, w, channels, timed, r)
       case (Request(c, x), Requested(r)) => Responded(v, w, c, x, r)
       case _ => false
  }

  function FailureIn(o: Response): Option<Error> {
    match o
    case Waited(r) => FailureOf(r)
    case Requested(r) => FailureOf(r)
  }

  /** A connection.close is answered. */
  function Farewell(o: Response): seq<Sent> {
    if FailureIn(o) == Some(ConnectionClosed) then [Sent(0, CONNECTION_CLOSE_OK)] else []
  }

  /** The broker has been sent the requests, and the answer to its connection.close. */
  ghost predicate Told(s: seq<Sent>, t: seq<Sent>, calls: seq<Call>, responses: seq<Response>) {
    && |responses| <= |calls|
    && t == s + AskedAll(calls[..|responses|]) + if responses == [] then [] else Farewell(responses[|responses| - 1])
  }

  lemma ToldMore(s: seq<Sent>, t: seq<Sent>, u: seq<Sent>, calls: seq<Call>, responses: seq<Response>, o: Response)
    requires Told(s, t, calls, responses) && |responses| < |calls|
    requires forall r :: r in responses ==> FailureIn(r).None?
    requires u == t + Asked(calls[|responses|]) + Farewell(o)
    ensures Told(s, u, calls, responses + [o])
  {
    var i := |responses|;
    assert calls[..i + 1][..i] == calls[..i];
    Associates(s, AskedAll(calls[..i]), Asked(calls[i]));
    Unpadded(s + AskedAll(calls[..i]));
  }

  function MessageIn(o: Response): seq<Envelope> {
    if o.Waited? && o.message.Got? then [o.message.value] else []
  }

  function Returned(responses: seq<Response>): seq<Envelope> {
    if responses == [] then []
    else Returned(responses[..|responses| - 1]) + MessageIn(responses[|responses| - 1])
  }

  /** Each call leads from one view to the next. */
  ghost predicate RunsThrough(views: seq<View>, calls: seq<Call>, responses: seq<Response>) {
    && |views| == |responses| + 1 && |responses| <= |calls|
    && forall i :: 0 <= i < |responses| ==> Served(views[i], views[i + 1], calls[i], responses[i])
  }

  lemma RunExtended(views: seq<View>, calls: seq<Call>, responses: seq<Response>, w: View, o: Response)
    requires RunsThrough(views, calls, responses) && |responses| < |calls|
    requires Served(views[|responses|], w, calls[|responses|], o)
    ensures RunsThrough(views + [w], calls, responses + [o])
  {
    var ws, os := views + [w], responses + [o];
    forall i | 0 <= i < |os| ensures Served(ws[i], ws[i + 1], calls[i], os[i]) {
      assert ws[i] == views[i] && (i < |responses| ==> ws[i + 1] == views[i + 1] && os[i] == responses[i]);
    }
  }

  lemma ReturnedNext(responses: seq<Response>, o: Response)
    ensures Returned(responses + [o]) == Returned(responses) + MessageIn(o)
  {
    assert (responses + [o])[..|responses|] == responses;
  }

  /** From v to w the calls have been served without a failure. */
  ghost predicate ServedWell(v: View, w: View, views: seq<View>, calls: seq<Call>, responses: seq<Response>) {
    && RunsThrough(views, calls, responses) && views[|responses|] == w
    && Consumable(w, [])
    && Accounted(v, w, Returned(responses))
    && (ClosesConnection(w) <==> ClosesConnection(v))
  }

  lemma ServedMore(v: View, x: View, w: View, views: seq<View>, calls: seq<Call>, responses: seq<Response>, o: Response)
    requires ServedWell(v, x, views, calls, responses) && |responses| < |calls| && Served(x, w, calls[|responses|], o)
    ensures RunsThrough(views + [w], calls, responses + [o])
    ensures FailureIn(o).None? && Consumable(w, []) ==> ServedWell(v, w, views + [w], calls, responses + [o])
    ensures FailureIn(o).Some? ==> Fails(v, w, FailureIn(o).value)
    ensures forall c :: c != 0 ==> EnvelopesOn(Returned(responses + [o]), c) <= Total(v, c)
  {
    RunExtended(views, calls, responses, w, o);
    ReturnedNext(responses, o);
    if FailureIn(o).None? {
      ServedNext(v, x, w, Returned(responses), calls[|responses|], o);
      assert forall c :: c != 0 ==> EnvelopesOn(Returned(responses + [o]), c) + Total(w, c) == Total(v, c);
    } else {
      Unpadded(Returned(responses));
      assert forall c :: c != 0 ==> EnvelopesOn(Returned(responses), c) + Total(x, c) == Total(v, c);
    }
  }

  lemma ServedNext(v: View, x: View, w: View, returned: seq<Envelope>, call: Call, o: Response)
    requires Accounted(v, x, returned) && Served(x, w, call, o) && FailureIn(o).None?
    ensures Accounted(v, w, returned + MessageIn(o))
  {
    if o.Waited? && o.message.Got? {
      var e := o.message.value;
      forall c | c != 0 ensures EnvelopesOn(returned + [e], c) + Total(w, c) == Total(v, c) {
        EnvelopesOnConcat(returned, [e], c);
        OneEnvelopeOn(e, c);
        Associates(EnvelopesOn(returned, c), EnvelopesOn([e], c), Total(w, c));
        Unpadded(EnvelopesOn(returned, c));
      }
    } else {
      Unpadded(returned);
    }
  }

  /**
   The stream that a broker sends, channel by channel: the state is ready for waits, and owes every channel
   exactly its messages.
   */
  lemma FramedStream(v: View, es: ChannelId -> seq<Envelope>, cuts: ChannelId -> seq<seq<seq<byte>>>)
    requires v.queue == [] && v.delivered == [] && v.reading == map[]
    requires forall c :: c != 0 ==> Framed(es(c), cuts(c)) && On(v.unread, c) == StreamFrames(es(c), cuts(c))
    ensures Consumable(v, []) && forall c :: c != 0 ==> Total(v, c) == es(c)
  {
    forall c | c != 0 ensures WellFormedOn(v, c) && Total(v, c) == es(c) {
      ReaderInvertsFraming(es(c), cuts(c));
      Unpadded(On(v.unread, c));
      Unpadded(MessagesLeft(v, c));
    }
    forall f | f in v.unread && f.channel != 0 ensures !IsReply(f) {
      OnMembers(v.unread, f.channel);
      NoStreamReplies(es(f.channel), cuts(f.channel));
    }
  }

  /** The requests that open a channel. */
  function Opening(c: ChannelId): seq<Sent> {
    [Sent(c, CHANNEL_OPEN), Sent(c, CONFIRM_SELECT)]
  }

  /** The requests that start a consumer. */
  function SetUp(c: ChannelId): seq<Sent> {
    [Sent(c, BASIC_QOS), Sent(c, BASIC_CONSUME)]
  }

  /** Some requests have been made one after the other, up to the first failure. */
  ghost predicate AskedInTurn(a: Conn, b: Conn, asked: seq<Sent>, failure: Option<Error>) {
    exists k :: 1 <= k <= |asked| && (failure.None? ==> k == |asked|) && Concluded(a.(sent := a.sent + asked[..k]), b, failure)
  }

  /** Seen from an earlier view. */
  lemma AskedEarlier(v: View, a: Conn, b: Conn, asked: seq<Sent>, failure: Option<Error>)
    requires NothingNew(v, a.view) && (ClosesConnection(v) <==> ClosesConnection(a.view)) && AskedInTurn(a, b, asked, failure)
    ensures AskedInTurn(a.(view := v), b, asked, failure)
  {
    var k :| 1 <= k <= |asked| && (failure.None? ==> k == |asked|) && Concluded(a.(sent := a.sent + asked[..k]), b, failure);
    var x := a.(sent := a.sent + asked[..k]);
    CausedEarlier(v, a.view, x, b, failure);
    assert Concluded(a.(view := v).(sent := a.sent + asked[..k]), b, failure);
  }

  /** What is sent to get a channel. */
  function OpeningFor(t: Table): seq<Sent>
    requires t.lastUsed < |t.channels|
  {
    if NeedsNew(t) then Opening(FirstIn(t.channels, ChannelState.Closed)) else []
  }

  /** A new channel has been refused, or one of the two requests that open it has failed. */
  ghost predicate NotCreated(a: Conn, b: Conn, channelMax: nat, error: Error) {
    var (u, x) := Create(a.table, channelMax, false);
    if x.TooMany? then error == TooManyChannels && b == a
    else AskedInTurn(a.(table := u), b, Opening(FirstIn(a.table.channels, ChannelState.Closed)), Some(error))
  }

  /** Nothing but the stream, the table and what has been sent is different. */
  ghost predicate GoneOn(a: Conn, b: Conn) {
    && NothingNew(a.view, b.view) && (ClosesConnection(a.view) <==> ClosesConnection(b.view))
    && b.connected == a.connected
  }

  /** How a request that needs a channel fails, in the opening of the channel or in the requests on it. */
  ghost predicate NotConsumed(a: Conn, b: Conn, channelMax: nat, error: Error)
    requires a.table.lastUsed < |a.table.channels|
  {
    || (NeedsNew(a.table) && NotCreated(a, b, channelMax, error))
    || (var (u, x) := Acquire(a.table, channelMax, true);
        x.Acquired? && AskedInTurn(a.(table := u, sent := a.sent + OpeningFor(a.table)), b, SetUp(x.id), Some(error)))
  }

  /**
   The order that the broker needs: the prefetch limit before the consumer it is for, a channel before anything on it,
   and confirmations before that.
   */
  predicate InTurn(told: seq<Sent>, k: nat)
    requires k < |told|
  {
    && (told[k].number == BASIC_CONSUME ==> Sent(told[k].channel, BASIC_QOS) in told[..k])
    && (told[k].number == CONFIRM_SELECT ==> Sent(told[k].channel, CHANNEL_OPEN) in told[..k])
    && (told[k].number in {BASIC_QOS, BASIC_CONSUME} && Sent(told[k].channel, CHANNEL_OPEN) in told ==>
          Sent(told[k].channel, CONFIRM_SELECT) in told[..k])
  }

  ghost predicate Prepared(told: seq<Sent>) {
    forall k :: 0 <= k < |told| ==> InTurn(told, k)
  }

  /** Some requests, and perhaps the answer to a close. */
  ghost predicate ToldUpTo(s: seq<Sent>, t: seq<Sent>, asked: seq<Sent>) {
    exists k, tail :: 0 <= k <= |asked| && |tail| <= 1 && t == s + (asked[..k] + tail)
      && forall x :: x in tail ==> x.number in {CHANNEL_CLOSE_OK, CONNECTION_CLOSE_OK}
  }

  lemma AskedIsTold(a: Conn, b: Conn, before: seq<Sent>, asked: seq<Sent>, failure: Option<Error>)
    requires AskedInTurn(a.(sent := a.sent + before), b, asked, failure)
    ensures ToldUpTo(a.sent, b.sent, before + asked)
  {
    var k :| 1 <= k <= |asked| && (failure.None? ==> k == |asked|)
      && Concluded(a.(sent := a.sent + before).(sent := a.sent + before + asked[..k]), b, failure);
    var now := a.sent + before + asked[..k];
    TailTold(a.sent, before, asked, k, b.sent[|now|..], b.sent);
  }

  lemma TailTold(s: seq<Sent>, before: seq<Sent>, asked: seq<Sent>, k: nat, tail: seq<Sent>, t: seq<Sent>)
    requires k <= |asked| && t == s + before + asked[..k] + tail && |tail| <= 1
    requires forall x :: x in tail ==> x.number in {CHANNEL_CLOSE_OK, CONNECTION_CLOSE_OK}
    ensures ToldUpTo(s, t, before + asked)
  {
    assert (before + asked)[..|before| + k] == before + asked[..k];
    assert t == s + ((before + asked)[..|before| + k] + tail);
  }

  lemma InTurnStill(asked: seq<Sent>, k: nat, tail: seq<Sent>, i: nat)
    requires Prepared(asked) && k <= |asked| && i < k + |tail|
    requires forall x :: x in tail ==> x.number in {CHANNEL_CLOSE_OK, CONNECTION_CLOSE_OK}
    ensures InTurn(asked[..k] + tail, i)
  {
    var told := asked[..k] + tail;
    if i < k {
      assert told[..i] == asked[..i] && told[i] == asked[i] && InTurn(asked, i);
    } else {
      assert told[i] in tail;
    }
  }

  /** What has been said in order is in order when it breaks off, with an answer to a close behind it. */
  lemma ToldIsPrepared(s: seq<Sent>, t: seq<Sent>, asked: seq<Sent>)
    requires Prepared(asked) && ToldUpTo(s, t, asked)
    ensures s <= t && Prepared(t[|s|..])
  {
    var k, tail :| 0 <= k <= |asked| && |tail| <= 1 && t == s + (asked[..k] + tail)
      && forall x :: x in tail ==> x.number in {CHANNEL_CLOSE_OK, CONNECTION_CLOSE_OK};
    assert t[|s|..] == asked[..k] + tail;
    forall i | 0 <= i < |t[|s|..]| ensures InTurn(t[|s|..], i) {
      InTurnStill(asked, k, tail, i);
    }
  }

  lemma SetUpPrepared(c: ChannelId)
    ensures Prepared([Sent(c, BASIC_QOS), Sent(c, BASIC_CONSUME)])
  {
    var told := [Sent(c, BASIC_QOS), Sent(c, BASIC_CONSUME)];
    assert told[..1] == [Sent(c, BASIC_QOS)];
  }

  lemma OpenedPrepared(c: ChannelId)
    ensures Prepared([Sent(c, CHANNEL_OPEN), Sent(c, CONFIRM_SELECT), Sent(c, BASIC_QOS), Sent(c, BASIC_CONSUME)])
  {
    var told := [Sent(c, CHANNEL_OPEN), Sent(c, CONFIRM_SELECT), Sent(c, BASIC_QOS), Sent(c, BASIC_CONSUME)];
    assert told[..1] == [Sent(c, CHANNEL_OPEN)];
    assert told[..2] == [Sent(c, CHANNEL_OPEN), Sent(c, CONFIRM_SELECT)];
    assert told[..3] == [Sent(c, CHANNEL_OPEN), Sent(c, CONFIRM_SELECT), Sent(c, BASIC_QOS)];
    assert told[..2][1] == Sent(c, CONFIRM_SELECT) && told[..3][1] == Sent(c, CONFIRM_SELECT) && told[..3][2] == Sent(c, BASIC_QOS);
    assert told[..1][0] == Sent(c, CHANNEL_OPEN);
  }

  lemma OpeningPrepared(c: ChannelId)
    ensures Prepared([Sent(c, CHANNEL_OPEN), Sent(c, CONFIRM_SELECT)])
  {
    var told := [Sent(c, CHANNEL_OPEN), Sent(c, CONFIRM_SELECT)];
    assert told[..1] == [Sent(c, CHANNEL_OPEN)];
  }

  lemma ConsumedPrepared(s: seq<Sent>, c: ChannelId, opens: bool)
    ensures var t := s + (if opens then [Sent(c, CHANNEL_OPEN), Sent(c, CONFIRM_SELECT)] else [])
                       + [Sent(c, BASIC_QOS), Sent(c, BASIC_CONSUME)];
      s <= t && Prepared(t[|s|..])
  {
    SetUpPrepared(c);
    OpenedPrepared(c);
    var t := s + (if opens then [Sent(c, CHANNEL_OPEN), Sent(c, CONFIRM_SELECT)] else [])
      + [Sent(c, BASIC_QOS), Sent(c, BASIC_CONSUME)];
    assert t[|s|..] == if opens then
      [Sent(c, CHANNEL_OPEN), Sent(c, CONFIRM_SELECT), Sent(c, BASIC_QOS), Sent(c, BASIC_CONSUME)]
      else [Sent(c, BASIC_QOS), Sent(c, BASIC_CONSUME)];
  }

  /** However a consumer fails to start, the requests have been made in order. */
  lemma NotConsumedPrepared(a: Conn, b: Conn, channelMax: nat, error: Error)
    requires Valid(a.table, channelMax) && NotConsumed(a, b, channelMax, error)
    ensures a.sent <= b.sent && Prepared(b.sent[|a.sent|..])
  {
    if NeedsNew(a.table) && NotCreated(a, b, channelMax, error) {
      var (u, x) := Create(a.table, channelMax, false);
      if x.TooMany? {
        assert b.sent[|a.sent|..] == [];
      } else {
        var c := FirstIn(a.table.channels, ChannelState.Closed);
        var opening := [Sent(c, CHANNEL_OPEN), Sent(c, CONFIRM_SELECT)];
        assert a.sent + [] == a.sent;
        AskedIsTold(a.(table := u), b, [], opening, Some(error));
        assert [] + opening == opening;
        OpeningPrepared(c);
        ToldIsPrepared(a.sent, b.sent, opening);
      }
    } else {
      var (u, x) := Acquire(a.table, channelMax, true);
      var setUp := [Sent(x.id, BASIC_QOS), Sent(x.id, BASIC_CONSUME)];
      var before := if NeedsNew(a.table) then [Sent(x.id, CHANNEL_OPEN), Sent(x.id, CONFIRM_SELECT)] else [];
      AskedIsTold(a.(table := u), b, before, setUp, Some(error));
      SetUpPrepared(x.id);
      OpenedPrepared(x.id);
      assert before + setUp == if NeedsNew(a.table) then [Sent(x.id, CHANNEL_OPEN), Sent(x.id, CONFIRM_SELECT),
        Sent(x.id, BASIC_QOS), Sent(x.id, BASIC_CONSUME)] else setUp;
      ToldIsPrepared(a.sent, b.sent, before + setUp);
    }
  }

  /** A consumer that is not started leaves the table of an unanswered request, or that and one step of the broker. */
  lemma NotConsumedIsRun(a: Conn, b: Conn, channelMax: nat, error: Error, tag: string)
    requires Valid(a.table, channelMax) && NotConsumed(a, b, channelMax, error)
    ensures exists granted :: OneStepBehind(Step(a.table, channelMax, Op.Consume(tag, granted, Broken)), b.table, channelMax)
  {
    AcquireValid(a.table, channelMax, false);
    AcquireValid(a.table, channelMax, true);
    if NeedsNew(a.table) && NotCreated(a, b, channelMax, error) {
      var (u, x) := Create(a.table, channelMax, false);
      if !x.TooMany? {
        AskedIsStep(a.(table := u), b, Opening(FirstIn(a.table.channels, ChannelState.Closed)), Some(error), channelMax);
      }
      assert OneStepBehind(Step(a.table, channelMax, Op.Consume(tag, false, Broken)), b.table, channelMax);
    } else {
      var (u, x) := Acquire(a.table, channelMax, true);
      AcquireIsFresh(a.table, channelMax, true);
      AskedIsStep(a.(table := u, sent := a.sent + OpeningFor(a.table)), b, SetUp(x.id), Some(error), channelMax);
      assert OneStepBehind(Step(a.table, channelMax, Op.Consume(tag, true, Broken)), b.table, channelMax);
    }
  }

  ghost predicate OneStepBehind(t: Table, u: Table, channelMax: nat) {
    Valid(t, channelMax)
    && (u == t || exists op: Op :: (op.CloseMet? || op.CancelledByBroker?) && u == Step(t, channelMax, op))
  }

  lemma AskedIsStep(a: Conn, b: Conn, asked: seq<Sent>, failure: Option<Error>, channelMax: nat)
    requires AskedInTurn(a, b, asked, failure) && Valid(a.table, channelMax)
    ensures OneStepBehind(a.table, b.table, channelMax)
  {
    var k :| 1 <= k <= |asked| && (failure.None? ==> k == |asked|) && Concluded(a.(sent := a.sent + asked[..k]), b, failure);
    EndedIsStep(a.(sent := a.sent + asked[..k]), b, failure, channelMax);
  }

  /** Where the channel is idle there is room for a reply. */
  lemma PlaceIsSound(v: View, c: ChannelId, i: nat, reply: Frame)
    requires Consumable(v, []) && c != 0 && i <= |v.unread| && IdleAt(v, c, i) && IsReply(reply) && reply.channel == c
    ensures Sound(v.(unread := v.unread[..i] + [reply] + v.unread[i..]))
  {
    var a, b := v.unread[..i], v.unread[i..];
    var w := v.(unread := a + [reply] + b);
    assert v.unread == a + b;
    forall d | d != 0 ensures WellFormedOn(w, d) {
      assert WellFormedOn(v, d);
      PlaceOnChannel(v, w, c, a, b, reply, d);
    }
  }

  lemma PlaceOnChannel(v: View, w: View, c: ChannelId, a: seq<Frame>, b: seq<Frame>, reply: Frame, d: ChannelId)
    requires v.unread == a + b && w == v.(unread := a + [reply] + b) && IsReply(reply) && reply.channel == c
    requires WellFormedOn(v, d) && PhaseAfter(PhaseOf(v, c), On(v.queue, c) + On(a, c)) == Idle
    ensures WellFormedOn(w, d)
  {
    var q := On(v.queue, d);
    InsertedOn(a, b, reply, d);
    if d == c {
      Associates(q, On(a, d), On(b, d));
      ReplyFits(PhaseOf(v, d), q + On(a, d), reply, On(b, d));
      Associates(q, On(a, d), [reply] + On(b, d));
    }
  }

  lemma OneOn(f: Frame, d: ChannelId)
    ensures On([f], d) == if d == f.channel then [f] else []
  {
    assert [f][1..] == [];
  }

  lemma InsertedOn(a: seq<Frame>, b: seq<Frame>, f: Frame, d: ChannelId)
    ensures On(a + b, d) == On(a, d) + On(b, d)
    ensures On(a + [f] + b, d) == if d == f.channel then On(a, d) + ([f] + On(b, d)) else On(a, d) + On(b, d)
  {
    OnConcat(a, b, d);
    OnConcat(a + [f], b, d);
    OnConcat(a, [f], d);
    OneOn(f, d);
    if d == f.channel {
      Associates(On(a, d), [f], On(b, d));
    } else {
      Unpadded(On(a, d));
    }
  }

  lemma ReplyFits(p: Phase, q: seq<Frame>, reply: Frame, u: seq<Frame>)
    requires WellFormed(p, q + u) && PhaseAfter(p, q) == Idle && IsReply(reply)
    ensures WellFormed(p, q + ([reply] + u))
  {
    ReadConcat(p, q, u);
    ReadConcat(p, q, [reply] + u);
    ReadStep(Idle, reply, u);
  }

  // -------------------------------------------------------------------------------------
  // Waiting
  // -------------------------------------------------------------------------------------

  /** A connection that ends cannot have left the reply behind unread. */
  lemma ReplyNotMissed(v: View, w: View, c: ChannelId, reply: Frame, ids: set<nat>)
    requires Waitable(v, [c]) && WaitedMethod(v, w, [c], ReplyWith(ids), [])
    requires reply in v.unread && reply.channel == c && IsExpected(reply, [c], ReplyWith(ids))
    ensures w.unread != []
  {
    OnMembers(v.unread, c);
    OnMembers(w.queue, c);
    assert reply in Rest(v, c) && Rest(v, c) == On(w.queue, c) + [] + On(w.unread, c);
  }

  /** A reply that comes at a place for it is taken, and no channel loses anything. */
  lemma RequestAnswered(v: View, v1: View, w: View, c: ChannelId, reply: Frame, ids: set<nat>, r: Fetch<Frame>)
    requires Answered(v, v1, c, reply) && Sound(v1) && Quiet(v) && v.reading == map[] && c != 0
    requires IsExpected(reply, [c], ReplyWith(ids)) && (r.Got? ==> IsExpected(r.value, [c], ReplyWith(ids))) && !r.NoFrame?
    requires Awaitable(v1, [c], ReplyWith(ids)) ==> MethodWaited(v1, w, [c], ReplyWith(ids), false, r)
    ensures r.Got? && StillOwed(v, w)
  {
    AnsweredConserves(v, v1, c, reply);
    AnsweredOnce(v, v1, c, reply);
    if r.Got? {
      ReplyTaken(v1, w, c, ReplyWith(ids), r.value);
      forall d | d != 0 ensures Total(w, d) == Total(v, d) {
        assert Conserved(v1, w, d);
      }
    } else {
      ReplyNotMissed(v1, w, c, reply, ids);
    }
  }

  /** The two ways in which a wait can fail on a well-formed stream: it is closed, or it is over. */
  ghost predicate StreamEnds(v: View, w: View, timed: bool, error: Error) {
    Fails(v, w, error) && (timed ==> error != LibraryError)
  }

  /** The delivery of a message has been read, and its header comes next. */
  ghost predicate Begins(v: View, c: ChannelId) {
    c in v.reading && v.reading[c].AwaitHeader?
  }

  /** The whole message is queued. */
  ghost predicate BeginsQueued(v: View, c: ChannelId) {
    Begins(v, c) && Queued(v, c) && Clean(v.queue)
  }

  /** On a well-formed stream, wherever the rest of the message is. */
  ghost predicate BeginsAtBroker(v: View, c: ChannelId) {
    Begins(v, c) && Waitable(v, [c]) && Quiet(v)
  }

  /** A message that has been begun is not read to its end. */
  ghost predicate BreaksOff(v: View, w: View, c: ChannelId, error: Error) {
    Fails(v, w, error) && MessagesLeft(v, c) == []
  }

  /** The body of a message has been received up to m, for a queued message and for a well-formed stream. */
  ghost predicate Partway(v: View, w: View, c: ChannelId, m: Envelope, size: nat, queued: bool, broker: bool) {
    && (queued ==> MidwayQueued(v, w, c, m, size) && Clean(w.queue))
    && (broker ==> Midway(v, w, c, m, size))
  }

  lemma FragmentReceived(v: View, x: View, w: View, c: ChannelId, m: Envelope, size: nat, f: Frame, queued: bool, broker: bool)
    requires m.channel == c == f.channel && |m.body| < size && f.payload.Body?
    requires Partway(v, x, c, m, size, queued, broker)
    requires queued ==>
      && f == On(x.queue, c)[0] && Clean(w.queue)
      && w == x.(queue := DropOn(x.queue, c, 1), reading := Note(x.reading, c, f))
    requires broker ==> Stepped(x, w, c, f)
    ensures queued || broker ==> |m.body| + |f.payload.fragment| <= size
    ensures Partway(v, w, c, m.(body := m.body + f.payload.fragment), size, queued, broker)
  {
    if queued { MidwayQueuedStep(v, x, w, c, m, size, f); }
    if broker { MidwayStep(v, x, w, c, m, size, f); }
  }

  /** A wait that the queue could not answer has ended. */
  ghost predicate MethodWaited(v: View, w: View, channels: seq<ChannelId>, wanted: Wanted, timed: bool, r: Fetch<Frame>) {
    && WaitedMethod(v, w, channels, wanted, if r.Got? then [r.value] else [])
    && (r.NoFrame? ==> Waitable(w, channels))
    && (r.Failed? ==> StreamEnds(v, w, timed, r.error))
  }

  /** What one round of a wait ends in. */
  datatype Round = End(fetched: Fetch<Frame>) | Again

  /** A wait for a frame has ended; v is the view before it, x the one before its last round. */
  ghost predicate FrameWaited(v: View, x: View, w: View, channels: seq<ChannelId>, timed: bool, r: Fetch<Frame>) {
    && WaitedFor(v, w, channels)
    && (r.Got? ==> Took(v, w, r.value.channel, r.value))
    && (r.Got? ==> forall c :: c in channels && c != r.value.channel ==> Untouched(v, w, c))
    && (!r.Got? ==> UntouchedAll(v, w, channels))
    && (r.NoFrame? ==> Waitable(w, channels))
    && (r.Failed? ==> StreamEnds(x, w, timed, r.error))
  }

  lemma FrameWaitedEarlier(v: View, x: View, w: View, channels: seq<ChannelId>, timed: bool, r: Fetch<Frame>)
    requires FrameWaited(v, x, w, channels, timed, r) && (ClosesConnection(x) <==> ClosesConnection(v))
    ensures FrameWaited(v, v, w, channels, timed, r)
  {
  }

  /** The queued frame a reader takes next is no channel.close. */
  lemma QueuedHead(v: View, c: ChannelId)
    requires c != 0 && On(v.queue, c) != []
    ensures Sound(v) ==> !IsMethod(On(v.queue, c)[0], ChannelClose)
    ensures Clean(v.queue) ==> Clean(DropOn(v.queue, c, 1))
  {
    OnMembers(v.queue, c);
    DropOnMembers(v.queue, c, 1);
    if Sound(v) { NotClose(v, On(v.queue, c)[0]); }
  }

  /** A frame taken for the reader of its channel, from the queue or from the broker, moves it on. */
  lemma ReaderMovesOn(v: View, w: View, c: ChannelId, f: Frame, x: View)
    requires Waitable(v, [c]) && Quiet(v) && c in v.reading
    requires if On(v.queue, c) != [] then w == v.(queue := DropOn(v.queue, c, 1)) && f == On(v.queue, c)[0]
             else WaitedFor(v, w, [c]) && Took(v, w, c, f)
    requires x == w.(reading := Note(w.reading, c, f))
    ensures Stepped(v, x, c, f)
  {
    if On(v.queue, c) != [] {
      HandedQueued(v, c);
    } else {
      HandedAfter(v, w, c, f);
    }
    assert c in [c];
    NoteSound(v, w, c, f, x);
  }

  /** On a well-formed stream a header follows the delivery. */
  lemma HeaderExpected(v: View, w: View, c: ChannelId, info: DeliverInfo, f: Frame)
    requires c in v.reading && v.reading[c] == AwaitHeader(info) && f.channel == c && Stepped(v, w, c, f)
    ensures f.payload.Header? && Midway(v, w, c, Envelope(c, info, f.payload.properties, []), f.payload.bodySize)
  {
    MidwayStart(v, w, c, info, f);
  }

  /** The first expected method of the queue has been taken out of it, nothing else has happened. */
  ghost predicate Picked(v: View, w: View, channels: seq<ChannelId>, wanted: Wanted, f: Frame) {
    exists i :: 0 <= i < |v.queue| && f == v.queue[i]
      && w == v.(queue := v.queue[..i] + v.queue[i + 1..])
      && forall k :: 0 <= k < i ==> !IsExpected(v.queue[k], channels, wanted)
  }

  ghost predicate Holds(queue: seq<Frame>, channels: seq<ChannelId>, wanted: Wanted) {
    exists f :: f in queue && IsExpected(f, channels, wanted)
  }

  /** The channels may be waited for, and any reply still to come is the expected one. */
  ghost predicate Awaitable(v: View, channels: seq<ChannelId>, wanted: Wanted) {
    Waitable(v, channels) && forall f :: f in v.unread && f.channel != 0 && IsReply(f) ==> IsExpected(f, channels, wanted)
  }

  /** Every channel is conserved, and only channel c is touched. */
  ghost predicate OnlyTouches(v: View, w: View, c: ChannelId) {
    forall d :: Conserved(v, w, d) && (d != c ==> Untouched(v, w, d))
  }

  lemma OnlyTouchesThen(v: View, x: View, w: View, c: ChannelId)
    requires OnlyTouches(v, x, c) && OnlyTouches(x, w, c)
    ensures OnlyTouches(v, w, c)
  {
    forall d ensures Conserved(v, w, d) && (d != c ==> Untouched(v, w, d)) {
      assert Conserved(v, x, d) && Conserved(x, w, d);
      assert d != c ==> Untouched(v, x, d) && Untouched(x, w, d);
    }
  }

  /** A frame of a channel goes to the end of the queue. */
  lemma FrameQueued(v: View, x: View, f: Frame, unread: seq<Frame>)
    requires v.unread == [f] + unread && x == v.(queue := v.queue + [f], unread := unread)
    ensures OnlyTouches(v, x, f.channel)
    ensures Sound(v) && f.channel != 0 && !IsReply(f) ==> Sound(x)
  {
    forall d ensures Rest(x, d) == Rest(v, d) && (d != f.channel ==> Untouched(v, x, d)) {
      EnqueueKeepsRest(v, f, unread, d);
    }
    assert forall d :: WellFormedOn(v, d) ==> WellFormedOn(x, d);
  }

  /** One channel is waited for, and its next message is queued. */
  ghost predicate QueuedAlone(v: View, waited: seq<ChannelId>) {
    |waited| == 1 && waited[0] !in v.reading && Queued(v, waited[0]) && Clean(v.queue)
  }

  lemma QueuedIsHeld(v: View, c: ChannelId)
    requires QueuedAlone(v, [c])
    ensures Holds(v.queue, [c], DeliverOrCancel)
  {
    OnMembers(v.queue, c);
    var first := On(v.queue, c)[0];
    assert first in On(v.queue, c);
    assert IsExpected(first, [c], DeliverOrCancel);
  }

  /** The reader of channel c has been started by the delivery f, and no channel has lost anything. */
  ghost predicate Started(v: View, x: View, c: ChannelId, f: Frame) {
    && IsDeliver(f)
    && Sound(x) && Quiet(x)
    && x.reading == map[c := AwaitHeader(f.payload.m.info)]
    && EnvelopesOn(x.delivered, c) == EnvelopesOn(v.delivered, c)
    && MessagesLeft(v, c) == MessagesLeft(x, c) && Rest(v, c) != []
    && (forall d :: d != 0 && d != c ==> Conserved(v, x, d))
  }

  ghost predicate StartedQueued(v: View, x: View, c: ChannelId, f: Frame) {
    && IsDeliver(f) && f.channel == c
    && c in x.reading && x.reading[c] == AwaitHeader(f.payload.m.info)
    && Clean(x.queue) && Queued(v, c) && Queued(x, c)
    && TakeQueued(x, c) == TakeQueued(v, c) && FirstQueued(x, c) == FirstQueued(v, c)
  }

  lemma DeliveryHanded(v: View, w: View, channels: seq<ChannelId>, f: Frame)
    requires Consumable(v, channels) && IsExpected(f, channels, DeliverOrCancel)
    requires if Holds(v.queue, channels, DeliverOrCancel) then Picked(v, w, channels, DeliverOrCancel, f)
             else WaitedMethod(v, w, channels, DeliverOrCancel, [f])
    ensures Handed(v, w, f.channel, f) && !IsReply(f) && IsDeliver(f)
  {
    if Holds(v.queue, channels, DeliverOrCancel) {
      var i :| 0 <= i < |v.queue| && f == v.queue[i]
        && w == v.(queue := v.queue[..i] + v.queue[i + 1..])
        && forall k :: 0 <= k < i ==> !IsExpected(v.queue[k], channels, DeliverOrCancel);
      OnMembers(v.queue, f.channel);
      IdleStartsWithDeliver(v, f.channel);
      ExpectedIsFirst(v.queue, i, channels, DeliverOrCancel);
      HandedQueued(v, f.channel);
    } else {
      WaitedMethodHands(v, w, channels, f);
      assert WellFormedOn(v, f.channel);
    }
  }

  lemma QueuedDelivery(v: View, w: View, c: ChannelId, f: Frame)
    requires c !in v.reading && Queued(v, c) && Clean(v.queue)
    requires Picked(v, w, [c], DeliverOrCancel, f) && IsExpected(f, [c], DeliverOrCancel)
    ensures IsDeliver(f) && f.channel == c && f == On(v.queue, c)[0]
    ensures w == v.(queue := DropOn(v.queue, c, 1))
  {
    OnMembers(v.queue, c);
    assert On(v.queue, c)[0] in On(v.queue, c);
    var i :| 0 <= i < |v.queue| && f == v.queue[i]
      && w == v.(queue := v.queue[..i] + v.queue[i + 1..])
      && forall k :: 0 <= k < i ==> !IsExpected(v.queue[k], [c], DeliverOrCancel);
    ExpectedIsFirst(v.queue, i, [c], DeliverOrCancel);
  }

  lemma QueuedRest(v: View, c: ChannelId, f: Frame, x: View)
    requires c !in v.reading && Queued(v, c) && f == On(v.queue, c)[0] && IsDeliver(f)
    requires x == v.(queue := DropOn(v.queue, c, 1), reading := v.reading[c := AwaitHeader(f.payload.m.info)])
    ensures Queued(x, c) && TakeQueued(x, c) == TakeQueued(v, c) && FirstQueued(x, c) == FirstQueued(v, c)
  {
    OnDropOn(v.queue, c, 1, c);
    var n := FirstLength(PhaseOf(x, c), On(x.queue, c));
    DropOnPlus(v.queue, c, n);
    assert x.reading - {c} == v.reading - {c};
  }

  lemma QueuedStarted(v: View, w: View, c: ChannelId, f: Frame, x: View)
    requires QueuedAlone(v, [c]) && IsExpected(f, [c], DeliverOrCancel) && Picked(v, w, [c], DeliverOrCancel, f)
    requires IsDeliver(f) ==> x == w.(reading := w.reading[f.channel := AwaitHeader(f.payload.m.info)])
    ensures StartedQueued(v, x, c, f)
  {
    QueuedDelivery(v, w, c, f);
    QueuedRest(v, c, f, x);
    DropOnMembers(v.queue, c, 1);
  }

  /** The wait for a delivery has started a reader, or ended without a message. */
  ghost predicate DeliveryBegun(v: View, x: View, channels: seq<ChannelId>, timed: bool, r: Fetch<Frame>) {
    match r
    case Got(f) => Started(v, x, f.channel, f)
    case NoFrame => Consumed(v, x, channels, timed, NoFrame)
    case Failed(error) => Consumed(v, x, channels, timed, Failed(error))
  }

  /** A frame of an awaited idle channel in the queue means an expected one. */
  lemma QueuedMeansHeld(v: View, channels: seq<ChannelId>, c: ChannelId)
    requires Sound(v) && v.reading == map[] && c != 0 && c in channels
    ensures On(v.queue, c) != [] ==> Holds(v.queue, channels, DeliverOrCancel)
  {
    if On(v.queue, c) != [] {
      IdleStartsWithDeliver(v, c);
      OnMembers(v.queue, c);
      assert On(v.queue, c)[0] in On(v.queue, c);
      assert IsExpected(On(v.queue, c)[0], channels, DeliverOrCancel);
    }
  }

  /** The wait for a delivery, for each of its outcomes. */
  lemma DeliveryAwaited(v: View, w: View, channels: seq<ChannelId>, timed: bool, r: Fetch<Frame>, x: View)
    requires Consumable(v, channels) && (r.Got? ==> IsExpected(r.value, channels, DeliverOrCancel)) && (r.NoFrame? ==> timed)
    requires Holds(v.queue, channels, DeliverOrCancel) ==> r.Got? && Picked(v, w, channels, DeliverOrCancel, r.value)
    requires !Holds(v.queue, channels, DeliverOrCancel) ==> MethodWaited(v, w, channels, DeliverOrCancel, timed, r)
    requires !r.Got? ==> w == x
    requires r.Got? && IsDeliver(r.value) ==>
      x == w.(reading := w.reading[r.value.channel := AwaitHeader(r.value.payload.m.info)])
    ensures DeliveryBegun(v, x, channels, timed, r)
  {
    if r.Got? {
      DeliveryHanded(v, w, channels, r.value);
      DeliverSound(v, w, r.value.channel, r.value, x);
    } else {
      WaitedInVain(v, w, channels, DeliverOrCancel);
      forall c | c in channels ensures On(v.queue, c) != [] ==> Holds(v.queue, channels, DeliverOrCancel) {
        QueuedMeansHeld(v, channels, c);
      }
      forall c | c in channels && w.unread == [] ensures MessagesLeft(v, c) == [] {
        NothingQueued(v, w, channels, [], c);
        assert Conserved(v, w, c);
      }
    }
  }

  /** The view after a delivery has started its reader. */
  function AfterMethod(w: View, r: Fetch<Frame>): View {
    if r.Got? && IsDeliver(r.value) then w.(reading := w.reading[r.value.channel := AwaitHeader(r.value.payload.m.info)]) else w
  }

  /** What the wait for the method has found, seen by a queued message and by a well-formed stream. */
  lemma MethodFound(v: View, w: View, channels: seq<ChannelId>, timed: bool, r: Fetch<Frame>)
    requires (r.Got? ==> IsExpected(r.value, channels, DeliverOrCancel)) && (r.NoFrame? ==> timed)
    requires Holds(v.queue, channels, DeliverOrCancel) ==> r.Got? && Picked(v, w, channels, DeliverOrCancel, r.value)
    requires !Holds(v.queue, channels, DeliverOrCancel) && Awaitable(v, channels, DeliverOrCancel) ==>
      MethodWaited(v, w, channels, DeliverOrCancel, timed, r)
    ensures QueuedAlone(v, channels) ==> r.Got? && StartedQueued(v, AfterMethod(w, r), channels[0], r.value)
    ensures Consumable(v, channels) ==> DeliveryBegun(v, AfterMethod(w, r), channels, timed, r)
  {
    if QueuedAlone(v, channels) {
      assert channels == [channels[0]];
      QueuedIsHeld(v, channels[0]);
      QueuedStarted(v, w, channels[0], r.value, AfterMethod(w, r));
    }
    if Consumable(v, channels) {
      DeliveryAwaited(v, w, channels, timed, r, AfterMethod(w, r));
    }
  }

  lemma NothingTaken(v: View, w: View, c: ChannelId)
    requires UntouchedAll(v, w, [c])
    ensures Untouched(v, w, c) && (w.unread == [] ==> On(v.unread, c) == [])
  {
    assert c in [c];
  }

  /** A delivery, and the message behind it. */
  lemma DeliveryRead(v: View, x: View, w: View, channels: seq<ChannelId>, timed: bool, f: Frame, r: Fetch<Envelope>)
    requires Consumable(v, channels) && f.channel in channels && Started(v, x, f.channel, f) && !r.NoFrame?
    requires if r.Got? then r.value.channel == f.channel && Midway(x, w, f.channel, r.value, 0) else BreaksOff(x, w, f.channel, r.error)
    requires ClosesConnection(x) <==> ClosesConnection(v)
    ensures Consumed(v, w, channels, timed, r)
  {
    if r.Got? {
      forall d | d != 0 && d != f.channel ensures Conserved(v, w, d) {
        assert Conserved(v, x, d) && Conserved(x, w, d);
      }
    }
  }
}
