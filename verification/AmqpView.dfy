/**
 The abstract state of the frame demultiplexer, and what it owes to each channel. The methods of the
 connection object in AmqpChannel lead from one view to another; what each of these transitions keeps
 is the matter of the lemmas here.
 */
module AmqpView {
  import opened AmqpFrames

  /**
   queue: frames read while waiting for another channel;  delivered: messages assembled on the way;
   unread: what the broker has still to send;  reading: where an unfinished reader stands.
   */
  datatype View = View(
    queue: seq<Frame>, delivered: seq<Envelope>, unread: seq<Frame>, reading: map<ChannelId, Phase>)

  function PhaseOf(v: View, c: ChannelId): Phase {
    if c in v.reading then v.reading[c] else Idle
  }

  /** The frames of a channel that its reader has not consumed. */
  function Rest(v: View, c: ChannelId): seq<Frame> {
    On(v.queue, c) + On(v.unread, c)
  }

  function MessagesLeft(v: View, c: ChannelId): seq<Envelope> {
    Messages(PhaseOf(v, c), Rest(v, c))
  }

  /** Everything the channel will still hand out: delivered list, then queued frames, then unread stream. */
  function Total(v: View, c: ChannelId): seq<Envelope> {
    EnvelopesOn(v.delivered, c) + MessagesLeft(v, c)
  }

  /** The queue holds content frames of real channels only. */
  ghost predicate Clean(queue: seq<Frame>) {
    forall f :: f in queue ==> f.channel != 0 && !IsReply(f)
  }

  ghost predicate WellFormedOn(v: View, c: ChannelId) {
    WellFormed(PhaseOf(v, c), Rest(v, c))
  }

  /** Every channel's remaining frames continue its reader properly. */
  ghost predicate Sound(v: View) {
    && Clean(v.queue)
    && (forall c :: c in v.reading ==> v.reading[c] != Idle)
    && (forall c :: c != 0 ==> WellFormedOn(v, c))
  }

  /** No request is waiting for its reply. */
  ghost predicate Quiet(v: View) {
    forall f :: f in v.unread && f.channel != 0 ==> !IsReply(f)
  }

  ghost predicate Untouched(v: View, w: View, c: ChannelId) {
    && On(w.queue, c) == On(v.queue, c)
    && On(w.unread, c) == On(v.unread, c)
    && EnvelopesOn(w.delivered, c) == EnvelopesOn(v.delivered, c)
    && PhaseOf(w, c) == PhaseOf(v, c)
  }

  ghost predicate Conserved(v: View, w: View, c: ChannelId) {
    && Total(w, c) == Total(v, c)
    && PhaseOf(w, c) == PhaseOf(v, c)
    && (WellFormedOn(v, c) ==> WellFormedOn(w, c))
  }

  /** w is v after f, the stream's next frame for channel c, has been handed over. */
  ghost predicate Took(v: View, w: View, c: ChannelId, f: Frame) {
    && f.channel == c
    && On(v.unread, c) == [f] + On(w.unread, c)
    && On(w.queue, c) == On(v.queue, c)
    && EnvelopesOn(w.delivered, c) == EnvelopesOn(v.delivered, c)
  }

  /** The first message of channel c can be read from queued frames alone. */
  ghost predicate Queued(v: View, c: ChannelId) {
    Messages(PhaseOf(v, c), On(v.queue, c)) != []
  }

  /** The view after that message has been taken out of the queue. */
  function TakeQueued(v: View, c: ChannelId): View
    requires Messages(PhaseOf(v, c), On(v.queue, c)) != []
  {
    v.(queue := DropOn(v.queue, c, FirstLength(PhaseOf(v, c), On(v.queue, c))),
       reading := v.reading - {c})
  }

  function FirstQueued(v: View, c: ChannelId): Envelope
    requires Messages(PhaseOf(v, c), On(v.queue, c)) != []
  {
    Messages(PhaseOf(v, c), On(v.queue, c))[0]
  }

  /** Moving the head of the stream to the end of the queue changes nothing for any channel. */
  lemma EnqueueKeepsRest(v: View, f: Frame, unread: seq<Frame>, c: ChannelId)
    requires v.unread == [f] + unread
    ensures Rest(v.(queue := v.queue + [f], unread := unread), c) == Rest(v, c)
    ensures f.channel != c ==> Untouched(v, v.(queue := v.queue + [f], unread := unread), c)
  {
    OnConcat(v.queue, [f], c);
    OnConcat([f], unread, c);
    assert [f][1..] == [];
    assert (On(v.queue, c) + On([f], c)) + On(unread, c) == On(v.queue, c) + (On([f], c) + On(unread, c));
  }

  /** Assembling a queued message into the delivered list conserves every channel. */
  lemma DeliverQueuedConserves(v: View, c: ChannelId, w: View)
    requires Sound(v) && c != 0 && c !in v.reading && Queued(v, c)
    requires w == TakeQueued(v, c).(delivered := v.delivered + [FirstQueued(v, c)])
    requires FirstQueued(v, c).channel == c
    ensures Sound(w) && w.reading == v.reading
    ensures forall d :: Conserved(v, w, d) && (d != c ==> Untouched(v, w, d))
  {
    assert w.reading == v.reading;
    assert WellFormedOn(v, c);
    forall d ensures Conserved(v, w, d) && (d != c ==> Untouched(v, w, d)) {
      DeliverQueuedOn(v, c, w, d);
    }
    DropOnMembers(v.queue, c, FirstLength(Idle, On(v.queue, c)));
    forall d | d != 0 ensures WellFormedOn(w, d) {
      assert Conserved(v, w, d) && WellFormedOn(v, d);
    }
  }

  lemma DeliverQueuedOn(v: View, c: ChannelId, w: View, d: ChannelId)
    requires c !in v.reading && Queued(v, c) && WellFormedOn(v, c)
    requires w == TakeQueued(v, c).(delivered := v.delivered + [FirstQueued(v, c)])
    requires FirstQueued(v, c).channel == c && w.reading == v.reading
    ensures Conserved(v, w, d) && (d != c ==> Untouched(v, w, d))
  {
    var fs, us := On(v.queue, c), On(v.unread, c);
    var n, e := FirstLength(Idle, fs), FirstQueued(v, c);
    OnDropOn(v.queue, c, n, d);
    EnvelopesOnConcat(v.delivered, [e], d);
    assert [e][1..] == [];
    if d == c {
      assert fs + us == fs[..n] + (fs[n..] + us);
      ReadConcat(Idle, fs[..n], fs[n..] + us);
      FirstSplits(Idle, fs);
      assert Rest(w, c) == fs[n..] + us;
      var delivered := EnvelopesOn(v.delivered, c);
      assert (delivered + [e]) + MessagesLeft(w, c) == delivered + ([e] + MessagesLeft(w, c));
    }
  }

  /** The reader's envelopes carry the channel of the frames they were read from. */
  lemma {:induction false} MessagesCarryChannel(p: Phase, fs: seq<Frame>, c: ChannelId)
    requires forall f :: f in fs ==> f.channel == c
    ensures forall e :: e in Messages(p, fs) ==> e.channel == c
    decreases fs
  {
    if fs != [] && Advance(p, fs[0]).Go? {
      MessagesCarryChannel(Advance(p, fs[0]).next, fs[1..], c);
    }
  }

  /** The state in which channels may be waited for: only they are being read, only they owe replies. */
  ghost predicate Waitable(v: View, channels: seq<ChannelId>) {
    && Sound(v)
    && 0 !in channels
    && (forall c :: c in v.reading ==> c in channels)
    && (forall f :: f in v.unread && f.channel != 0 && IsReply(f) ==> f.channel in channels)
  }

  /** What waiting for some channels may do: it conserves the others, and reads on in the stream. */
  ghost predicate WaitedFor(v: View, w: View, channels: seq<ChannelId>) {
    && Clean(w.queue)
    && w.reading == v.reading
    && (forall d :: d != 0 && d !in channels ==> Conserved(v, w, d))
    && (forall f :: f in w.unread ==> f in v.unread)
  }

  ghost predicate UntouchedAll(v: View, w: View, channels: seq<ChannelId>) {
    forall c :: c in channels ==> Untouched(v, w, c)
  }

  lemma {:induction false} DropOnPlus(fs: seq<Frame>, c: ChannelId, n: nat)
    ensures DropOn(DropOn(fs, c, 1), c, n) == DropOn(fs, c, n + 1)
  {
    if fs != [] && fs[0].channel != c {
      DropOnPlus(fs[1..], c, n);
      var rest := DropOn(fs[1..], c, 1);
      assert ([fs[0]] + rest)[1..] == rest;
    }
  }

  /** In a sound state the scan of the queue is exact. */
  lemma ScanOfQueue(v: View, c: ChannelId)
    requires Sound(v) && c != 0 && c !in v.reading
    ensures Scan(On(v.queue, c)) == if Queued(v, c) then Complete else Incomplete
  {
    assert WellFormedOn(v, c);
    ReadConcat(Idle, On(v.queue, c), On(v.unread, c));
    OnMembers(v.queue, c);
    ScanPredicts(On(v.queue, c));
  }

  lemma QueuedEnvelopeOnChannel(v: View, c: ChannelId)
    requires Queued(v, c)
    ensures FirstQueued(v, c).channel == c
  {
    OnMembers(v.queue, c);
    MessagesCarryChannel(PhaseOf(v, c), On(v.queue, c), c);
  }

  /** The stream loses its first frame. */
  ghost predicate Popped(v: View, w: View, f: Frame) {
    v.unread == [f] + w.unread && w == v.(unread := w.unread)
  }

  lemma PoppedRest(v: View, w: View, f: Frame, d: ChannelId)
    requires Popped(v, w, f)
    ensures On(v.unread, d) == (if d == f.channel then [f] else []) + On(w.unread, d)
  {
    assert v.unread[0] == f && v.unread[1..] == w.unread;
  }

  /** The awaited frame is handed over. */
  lemma HandOver(v: View, v0: View, w: View, channels: seq<ChannelId>, f: Frame)
    requires Waitable(v0, channels) && WaitedFor(v, v0, channels) && UntouchedAll(v, v0, channels)
    requires Popped(v0, w, f) && f.channel in channels
    ensures WaitedFor(v, w, channels) && Took(v, w, f.channel, f)
    ensures forall c :: c in channels && c != f.channel ==> Untouched(v, w, c)
  {
    forall d ensures On(v0.unread, d) == (if d == f.channel then [f] else []) + On(w.unread, d) {
      PoppedRest(v0, w, f, d);
    }
    assert Untouched(v, v0, f.channel);
    forall d | d != 0 && d !in channels ensures Conserved(v, w, d) {
      assert Conserved(v, v0, d) && Rest(w, d) == Rest(v0, d);
    }
  }

  /** A frame of channel 0 is dropped. */
  lemma DropZero(v: View, v0: View, w: View, channels: seq<ChannelId>, f: Frame)
    requires Waitable(v0, channels) && WaitedFor(v, v0, channels) && UntouchedAll(v, v0, channels)
    requires Popped(v0, w, f) && f.channel == 0
    ensures Waitable(w, channels) && WaitedFor(v, w, channels) && UntouchedAll(v, w, channels)
  {
    forall d | d != 0 ensures Rest(w, d) == Rest(v0, d) && On(w.unread, d) == On(v0.unread, d) {
      PoppedRest(v0, w, f, d);
    }
    forall d | d != 0 && d !in channels ensures Conserved(v, w, d) {
      assert Conserved(v, v0, d);
    }
    forall d | d != 0 ensures WellFormedOn(w, d) {
      assert WellFormedOn(v0, d);
    }
  }

  /** A frame of a channel nobody waits for has been queued, and its channel conserved. */
  lemma Queue(v: View, v0: View, w: View, channels: seq<ChannelId>, f: Frame)
    requires Waitable(v0, channels) && WaitedFor(v, v0, channels) && UntouchedAll(v, v0, channels)
    requires v0.unread == [f] + w.unread && f.channel !in channels && f.channel != 0
    requires Sound(w) && w.reading == v0.reading
    requires forall d :: Conserved(v0, w, d) && (d != f.channel ==> Untouched(v0, w, d))
    ensures Waitable(w, channels) && WaitedFor(v, w, channels) && UntouchedAll(v, w, channels)
  {
    forall d | d != 0 && d !in channels ensures Conserved(v, w, d) {
      assert Conserved(v, v0, d) && Conserved(v0, w, d);
    }
    forall c | c in channels ensures Untouched(v, w, c) {
      assert Untouched(v, v0, c) && Untouched(v0, w, c);
    }
  }

  // -------------------------------------------------------------------------------------
  // One frame handed to the reader of a channel
  // -------------------------------------------------------------------------------------

  /** The readers' phases after frame f of channel c. */
  function Note(reading: map<ChannelId, Phase>, c: ChannelId, f: Frame): map<ChannelId, Phase> {
    if c in reading && Advance(reading[c], f).Go? then
      var next := Advance(reading[c], f).next;
      if next == Idle then reading - {c} else reading[c := next]
    else reading
  }

  /** Only channel c changed, and c lost the frame f from its rest. */
  ghost predicate Handed(v: View, w: View, c: ChannelId, f: Frame) {
    && Clean(w.queue)
    && w.reading == v.reading
    && Rest(v, c) == [f] + Rest(w, c)
    && EnvelopesOn(w.delivered, c) == EnvelopesOn(v.delivered, c)
    && (forall g :: g in w.unread ==> g in v.unread)
    && (forall d :: d != 0 && d != c ==> Conserved(v, w, d))
  }

  lemma HandedQueued(v: View, c: ChannelId)
    requires Sound(v) && On(v.queue, c) != []
    ensures Handed(v, v.(queue := DropOn(v.queue, c, 1)), c, On(v.queue, c)[0])
  {
    var w := v.(queue := DropOn(v.queue, c, 1));
    DropOnMembers(v.queue, c, 1);
    forall d ensures On(w.queue, d) == if d == c then On(v.queue, c)[1..] else On(v.queue, d) {
      OnDropOn(v.queue, c, 1, d);
    }
    assert Rest(v, c) == [On(v.queue, c)[0]] + Rest(w, c);
  }

  /** Advancing the reader keeps the state sound, and accounts for the message the frame completes. */
  lemma NoteSound(v: View, w: View, c: ChannelId, f: Frame, x: View)
    requires Sound(v) && c != 0 && c in v.reading && Handed(v, w, c, f)
    requires x == w.(reading := Note(w.reading, c, f))
    ensures Advance(v.reading[c], f).Go? && Sound(x)
    ensures MessagesLeft(v, c) == Advance(v.reading[c], f).out + MessagesLeft(x, c)
    ensures forall d :: d != 0 && d != c ==> Conserved(v, x, d)
  {
    assert WellFormedOn(v, c);
    ReadStep(v.reading[c], f, Rest(w, c));
    forall d | d != 0 && d != c ensures Conserved(v, x, d) {
      assert Conserved(v, w, d);
    }
    forall d | d != 0 ensures WellFormedOn(x, d) {
      assert d != c ==> Conserved(v, x, d) && WellFormedOn(v, d);
    }
  }

  /** Advancing the reader inside a queued message: either it is finished, or the rest of it is queued. */
  lemma NoteQueued(v: View, c: ChannelId, x: View)
    requires c in v.reading && v.reading[c] != Idle && Queued(v, c)
    requires x == v.(queue := DropOn(v.queue, c, 1), reading := Note(v.reading, c, On(v.queue, c)[0]))
    ensures var s := Advance(v.reading[c], On(v.queue, c)[0]);
      s.Go? && if s.out != [] then x == TakeQueued(v, c) && s.out == [FirstQueued(v, c)]
      else c in x.reading && Queued(x, c) && TakeQueued(x, c) == TakeQueued(v, c) && FirstQueued(x, c) == FirstQueued(v, c)
  {
    var p, fs := v.reading[c], On(v.queue, c);
    var s := Advance(p, fs[0]);
    OnDropOn(v.queue, c, 1, c);
    if s.out == [] {
      var n := FirstLength(s.next, fs[1..]);
      DropOnPlus(v.queue, c, n);
      assert x.reading - {c} == v.reading - {c};
    }
  }

  // -------------------------------------------------------------------------------------
  // The expected method that starts a message
  // -------------------------------------------------------------------------------------

  /** The first expected method of the queue is the first frame of its channel. */
  lemma ExpectedIsFirst(queue: seq<Frame>, i: nat, channels: seq<ChannelId>, wanted: Wanted)
    requires i < |queue| && IsExpected(queue[i], channels, wanted)
    requires forall k :: 0 <= k < i ==> !IsExpected(queue[k], channels, wanted)
    requires On(queue, queue[i].channel) != [] ==> IsExpected(On(queue, queue[i].channel)[0], channels, wanted)
    ensures On(queue, queue[i].channel) != [] && On(queue, queue[i].channel)[0] == queue[i]
    ensures queue[..i] + queue[i + 1..] == DropOn(queue, queue[i].channel, 1)
  {
    var c := queue[i].channel;
    OnMembers(queue, c);
    var j := OnFirst(queue, c);
    assert j == i;
    OnNone(queue[..i], c);
    EraseIsDropOn(queue, i, c);
  }

  /** The first frame an idle channel still has to read, replies apart, is a delivery. */
  lemma IdleStartsWithDeliver(v: View, c: ChannelId)
    requires Sound(v) && c != 0 && c !in v.reading && On(v.queue, c) != []
    ensures IsDeliver(On(v.queue, c)[0])
  {
    assert WellFormedOn(v, c);
    assert Rest(v, c)[0] == On(v.queue, c)[0];
    OnMembers(v.queue, c);
  }

  /** What a wait for a method does when the queue holds no expected one. */
  ghost predicate WaitedMethod(v: View, w: View, channels: seq<ChannelId>, wanted: Wanted, taken: seq<Frame>) {
    && WaitedFor(v, w, channels)
    && (forall f :: f in w.queue ==> !IsExpected(f, channels, wanted))
    && (forall c :: c in channels ==>
          EnvelopesOn(w.delivered, c) == EnvelopesOn(v.delivered, c)
          && Rest(v, c) == On(w.queue, c) + On(taken, c) + On(w.unread, c))
  }

  /** Waiting on, the awaited channels change only by the frame that is handed over. */
  lemma WaitedMore(v: View, v0: View, w: View, channels: seq<ChannelId>, wanted: Wanted, taken: seq<Frame>)
    requires WaitedMethod(v, v0, channels, wanted, []) && WaitedFor(v0, w, channels)
    requires taken == [] ==> UntouchedAll(v0, w, channels)
    requires taken != [] ==> |taken| == 1 && Took(v0, w, taken[0].channel, taken[0])
    requires taken != [] ==> forall c :: c in channels && c != taken[0].channel ==> Untouched(v0, w, c)
    ensures WaitedMethod(v, w, channels, wanted, taken)
  {
    forall c | c in channels
      ensures EnvelopesOn(w.delivered, c) == EnvelopesOn(v.delivered, c)
      ensures On(w.queue, c) == On(v0.queue, c)
      ensures Rest(v, c) == On(w.queue, c) + On(taken, c) + On(w.unread, c)
    {
      assert taken != [] ==> taken[1..] == [];
      assert taken == [] || c != taken[0].channel ==> Untouched(v0, w, c);
    }
    forall f | f in w.queue ensures !IsExpected(f, channels, wanted) {
      if f.channel in channels {
        OnMembers(w.queue, f.channel);
        OnMembers(v0.queue, f.channel);
        assert f in On(w.queue, f.channel);
      }
    }
    forall d | d != 0 && d !in channels ensures Conserved(v, w, d) {
      assert Conserved(v, v0, d) && Conserved(v0, w, d);
    }
  }

  /** An unexpected frame of an awaited channel goes to the end of the queue. */
  lemma PushUnscanned(v: View, v1: View, w: View, channels: seq<ChannelId>, wanted: Wanted, f: Frame)
    requires Waitable(v, channels) && f in v.unread && f.channel in channels
    requires forall g :: g in v.unread && g.channel != 0 && IsReply(g) ==> IsExpected(g, channels, wanted)
    requires WaitedMethod(v, v1, channels, wanted, [f]) && !IsExpected(f, channels, wanted)
    requires w == v1.(queue := v1.queue + [f])
    ensures Waitable(w, channels) && WaitedMethod(v, w, channels, wanted, [])
  {
    assert [f][1..] == [];
    forall d ensures On(w.queue, d) == On(v1.queue, d) + On([f], d) {
      OnConcat(v1.queue, [f], d);
    }
    forall d | d != 0 && d !in channels ensures Conserved(v, w, d) {
      assert Conserved(v, v1, d) && On([f], d) == [] && Rest(w, d) == Rest(v1, d);
    }
    forall c | c in channels ensures Rest(v, c) == Rest(w, c) && Rest(v, c) == On(w.queue, c) + On([], c) + On(w.unread, c) {
      assert Rest(v, c) == On(v1.queue, c) + On([f], c) + On(v1.unread, c);
      assert On(w.queue, c) == On(v1.queue, c) + On([f], c) && On([], c) == [];
      assert On(w.queue, c) + On([], c) == On(w.queue, c);
    }
    forall d | d != 0 ensures WellFormedOn(w, d) {
      assert WellFormedOn(v, d);
      assert d !in channels ==> Conserved(v, w, d);
    }
  }

  lemma NotClose(v: View, f: Frame)
    requires Sound(v) && (f in v.unread || f in v.queue) && f.channel != 0
    ensures f.payload.MethodFrame? ==> IsDeliver(f) || IsReply(f)
  {
    OnMembers(v.unread, f.channel);
    OnMembers(v.queue, f.channel);
    assert WellFormedOn(v, f.channel);
    WellFormedFrames(PhaseOf(v, f.channel), Rest(v, f.channel));
    assert f in Rest(v, f.channel);
  }

  lemma WaitedMethodHands(v: View, w: View, channels: seq<ChannelId>, f: Frame)
    requires Sound(v) && v.reading == map[] && 0 !in channels
    requires IsExpected(f, channels, DeliverOrCancel)
    requires WaitedMethod(v, w, channels, DeliverOrCancel, [f])
    ensures Handed(v, w, f.channel, f)
  {
    var c := f.channel;
    assert [f][1..] == [];
    NothingQueued(v, w, channels, [f], c);
    assert On([f], c) == [f];
    assert Rest(v, c) == [f] + Rest(w, c);
    forall d | d != 0 && d != c ensures Conserved(v, w, d) {
      if d in channels {
        assert On([f], d) == [];
        assert Rest(v, d) == Rest(w, d);
      }
    }
  }

  /** No frame of an awaited idle channel stays behind in the queue: it would be a delivery. */
  lemma NothingQueued(v: View, w: View, channels: seq<ChannelId>, taken: seq<Frame>, c: ChannelId)
    requires Sound(v) && v.reading == map[] && c != 0 && c in channels
    requires WaitedMethod(v, w, channels, DeliverOrCancel, taken)
    ensures On(w.queue, c) == []
  {
    OnMembers(w.queue, c);
    assert WellFormedOn(v, c);
    assert On(w.queue, c) == [] || Rest(v, c)[0] == On(w.queue, c)[0];
    assert On(w.queue, c) == [] || IsExpected(On(w.queue, c)[0], channels, DeliverOrCancel);
  }

  /** A wait without an expected method conserves the awaited channels too. */
  lemma WaitedInVain(v: View, w: View, channels: seq<ChannelId>, wanted: Wanted)
    requires Sound(v) && WaitedMethod(v, w, channels, wanted, [])
    ensures forall d :: d != 0 ==> Conserved(v, w, d)
  {
    forall d | d != 0 ensures Conserved(v, w, d) {
      if d in channels {
        assert Rest(v, d) == On(w.queue, d) + [] + On(w.unread, d) == Rest(w, d);
      }
    }
  }

  /** A delivery starts a reader. */
  lemma DeliverSound(v: View, w: View, c: ChannelId, f: Frame, x: View)
    requires Sound(v) && c != 0 && c !in v.reading && Handed(v, w, c, f) && !IsReply(f)
    requires IsDeliver(f) ==> x == w.(reading := w.reading[c := AwaitHeader(f.payload.m.info)])
    ensures IsDeliver(f) && Sound(x)
    ensures MessagesLeft(v, c) == MessagesLeft(x, c)
    ensures forall d :: d != 0 && d != c ==> Conserved(v, x, d)
  {
    assert WellFormedOn(v, c);
    ReadStep(Idle, f, Rest(w, c));
    forall d | d != 0 && d != c ensures Conserved(v, x, d) {
      assert Conserved(v, w, d);
    }
    forall d | d != 0 ensures WellFormedOn(x, d) {
      assert d != c ==> Conserved(v, x, d) && WellFormedOn(v, d);
    }
  }

  // -------------------------------------------------------------------------------------
  // Reading one message to its end
  // -------------------------------------------------------------------------------------

  /** The reader of channel c has received part of a body, or all of it. */
  ghost predicate Midway(v: View, w: View, c: ChannelId, m: Envelope, size: nat) {
    && Sound(w) && Quiet(w)
    && EnvelopesOn(w.delivered, c) == EnvelopesOn(v.delivered, c)
    && (forall d :: d != 0 && d != c ==> Conserved(v, w, d))
    && (if |m.body| < size then
          w.reading == v.reading[c := AwaitBody(m.info, m.properties, size, m.body)]
          && MessagesLeft(v, c) == MessagesLeft(w, c)
        else
          w.reading == v.reading - {c} && MessagesLeft(v, c) == [m] + MessagesLeft(w, c))
  }

  /** The same when the whole message is queued. */
  ghost predicate MidwayQueued(v: View, w: View, c: ChannelId, m: Envelope, size: nat) {
    && Queued(v, c)
    && (if |m.body| < size then
          w.reading == v.reading[c := AwaitBody(m.info, m.properties, size, m.body)]
          && Queued(w, c) && TakeQueued(w, c) == TakeQueued(v, c) && FirstQueued(w, c) == FirstQueued(v, c)
        else
          w == TakeQueued(v, c) && FirstQueued(v, c) == m)
  }

  lemma HandedAfter(v: View, w: View, c: ChannelId, f: Frame)
    requires On(v.queue, c) == [] && WaitedFor(v, w, [c]) && Took(v, w, c, f)
    ensures Handed(v, w, c, f)
  {
    assert Rest(v, c) == [f] + Rest(w, c);
  }

  /** One frame of channel c has gone through its reader. */
  ghost predicate Stepped(v: View, w: View, c: ChannelId, f: Frame)
    requires c in v.reading
  {
    && Advance(v.reading[c], f).Go?
    && Sound(w) && Quiet(w)
    && w.reading == Note(v.reading, c, f)
    && MessagesLeft(v, c) == Advance(v.reading[c], f).out + MessagesLeft(w, c)
    && EnvelopesOn(w.delivered, c) == EnvelopesOn(v.delivered, c)
    && (forall d :: d != 0 && d != c ==> Conserved(v, w, d))
  }

  /** A body frame received: the next point midway. */
  lemma MidwayStep(v: View, x: View, w: View, c: ChannelId, m: Envelope, size: nat, f: Frame)
    requires m.channel == c == f.channel && |m.body| < size && f.payload.Body?
    requires Midway(v, x, c, m, size) && Stepped(x, w, c, f)
    ensures |m.body| + |f.payload.fragment| <= size
    ensures Midway(v, w, c, m.(body := m.body + f.payload.fragment), size)
  {
    forall d | d != 0 && d != c ensures Conserved(v, w, d) {
      assert Conserved(v, x, d) && Conserved(x, w, d);
    }
  }

  lemma MidwayQueuedStep(v: View, x: View, w: View, c: ChannelId, m: Envelope, size: nat, f: Frame)
    requires m.channel == c == f.channel && |m.body| < size && f.payload.Body?
    requires MidwayQueued(v, x, c, m, size) && f == On(x.queue, c)[0]
    requires w == x.(queue := DropOn(x.queue, c, 1), reading := Note(x.reading, c, f))
    ensures |m.body| + |f.payload.fragment| <= size
    ensures MidwayQueued(v, w, c, m.(body := m.body + f.payload.fragment), size)
  {
    NoteQueued(x, c, w);
  }

  /** A header received: the start midway. */
  lemma MidwayStart(v: View, w: View, c: ChannelId, info: DeliverInfo, f: Frame)
    requires f.channel == c && f.payload.Header? && c in v.reading && v.reading[c] == AwaitHeader(info)
    requires Stepped(v, w, c, f)
    ensures Midway(v, w, c, Envelope(c, info, f.payload.properties, []), f.payload.bodySize)
  {
  }

  lemma MidwayQueuedStart(v: View, w: View, c: ChannelId, info: DeliverInfo, f: Frame)
    requires c in v.reading && v.reading[c] == AwaitHeader(info) && Queued(v, c) && f == On(v.queue, c)[0]
    requires f.channel == c && w == v.(queue := DropOn(v.queue, c, 1), reading := Note(v.reading, c, f))
    ensures f.payload.Header?
    ensures MidwayQueued(v, w, c, Envelope(c, info, f.payload.properties, []), f.payload.bodySize)
  {
    NoteQueued(v, c, w);
  }

  // -------------------------------------------------------------------------------------
  // Requests and their replies
  // -------------------------------------------------------------------------------------

  /** The broker answers a request on channel c: its reply comes at some later point of the stream. */
  ghost predicate Answered(v: View, w: View, c: ChannelId, reply: Frame) {
    && IsReply(reply) && reply.channel == c
    && exists a, b :: v.unread == a + b && w == v.(unread := a + [reply] + b)
  }

  lemma AnsweredConserves(v: View, w: View, c: ChannelId, reply: Frame)
    requires Answered(v, w, c, reply) && Sound(w)
    ensures Sound(v) && forall d :: d != 0 ==> Total(w, d) == Total(v, d)
    ensures forall f :: f in w.unread ==> f == reply || f in v.unread
  {
    var a, b :| v.unread == a + b && w == v.(unread := a + [reply] + b);
    forall d | d != 0 ensures Total(w, d) == Total(v, d) && WellFormedOn(v, d) {
      AnsweredOn(v, w, a, b, reply, d);
    }
  }

  lemma AnsweredOn(v: View, w: View, a: seq<Frame>, b: seq<Frame>, reply: Frame, d: ChannelId)
    requires v.unread == a + b && w == v.(unread := a + [reply] + b) && IsReply(reply) && WellFormedOn(w, d)
    ensures MessagesLeft(w, d) == MessagesLeft(v, d) && WellFormedOn(v, d)
  {
    var q, mid := On(v.queue, d) + On(a, d), On(b, d);
    assert [reply][1..] == [];
    OnConcat(a, b, d);
    OnConcat(a + [reply], b, d);
    OnConcat(a, [reply], d);
    assert Rest(v, d) == q + mid;
    if d == reply.channel {
      assert Rest(w, d) == q + [reply] + mid;
      ReplyIsTransparent(PhaseOf(v, d), q, reply, mid);
    } else {
      assert Rest(w, d) == Rest(v, d);
    }
  }

  /** The number of replies among some frames. */
  function Replies(fs: seq<Frame>): nat {
    if fs == [] then 0 else (if IsReply(fs[0]) then 1 else 0) + Replies(fs[1..])
  }

  lemma {:induction false} RepliesConcat(a: seq<Frame>, b: seq<Frame>)
    ensures Replies(a + b) == Replies(a) + Replies(b)
  {
    if a == [] {
      assert a + b == b;
    } else {
      assert (a + b)[1..] == a[1..] + b;
      RepliesConcat(a[1..], b);
    }
  }

  lemma {:induction false} NoReplies(fs: seq<Frame>)
    ensures Replies(fs) == 0 <==> forall f :: f in fs ==> !IsReply(f)
  {
    if fs != [] {
      NoReplies(fs[1..]);
      assert fs == [fs[0]] + fs[1..];
    }
  }

  lemma AnsweredOnce(v: View, w: View, c: ChannelId, reply: Frame)
    requires Answered(v, w, c, reply) && Quiet(v) && Clean(v.queue) && c != 0
    ensures Replies(Rest(w, c)) == 1
  {
    var a, b :| v.unread == a + b && w == v.(unread := a + [reply] + b);
    assert [reply][1..] == [];
    OnConcat(a + [reply], b, c);
    OnConcat(a, [reply], c);
    OnMembers(v.queue, c);
    OnMembers(a, c);
    OnMembers(b, c);
    NoReplies(On(v.queue, c));
    NoReplies(On(a, c));
    NoReplies(On(b, c));
    assert On(w.unread, c) == On(a, c) + [reply] + On(b, c);
    RepliesConcat(On(a, c) + [reply], On(b, c));
    RepliesConcat(On(a, c), [reply]);
    RepliesConcat(On(v.queue, c), On(w.unread, c));
    assert forall f :: f in On(a, c) ==> f in v.unread;
    assert forall f :: f in On(b, c) ==> f in v.unread;
  }

  /** On the channel of the request. */
  lemma ReplyTakenThere(v: View, w: View, c: ChannelId, wanted: Wanted, f: Frame)
    requires Waitable(v, [c]) && WaitedMethod(v, w, [c], wanted, [f])
    requires IsReply(f) && f.channel == c && Replies(Rest(v, c)) == 1
    ensures Conserved(v, w, c) && WellFormedOn(w, c)
    ensures forall g :: g in On(w.unread, c) ==> !IsReply(g)
  {
    assert [f][1..] == [] && On([f], c) == [f];
    var q, u := On(w.queue, c), On(w.unread, c);
    assert c in [c] && WellFormedOn(v, c) && Rest(v, c) == q + [f] + u;
    ReplyIsTransparent(PhaseOf(v, c), q, f, u);
    RepliesConcat(q + [f], u);
    RepliesConcat(q, [f]);
    NoReplies(u);
  }

  /** Taking the reply out, and queueing what came before it, conserves every channel. */
  lemma ReplyTaken(v: View, w: View, c: ChannelId, wanted: Wanted, f: Frame)
    requires Waitable(v, [c]) && WaitedMethod(v, w, [c], wanted, [f])
    requires IsReply(f) && f.channel == c && Replies(Rest(v, c)) == 1
    ensures Sound(w) && Quiet(w) && forall d :: d != 0 ==> Conserved(v, w, d)
  {
    ReplyTakenThere(v, w, c, wanted, f);
    OnMembers(w.unread, c);
    forall d | d != 0 ensures Conserved(v, w, d) && WellFormedOn(w, d) {
      assert WellFormedOn(v, d);
    }
    forall g | g in w.unread && g.channel != 0 ensures !IsReply(g) {
      assert g.channel == c ==> g in On(w.unread, c);
    }
  }
}
