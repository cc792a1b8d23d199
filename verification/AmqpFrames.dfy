/**
 AMQP frames, and the reader of one channel.
 */
module AmqpFrames {

  type ChannelId = nat

  type byte = x: int | 0 <= x < 256

  datatype DeliverInfo = DeliverInfo(
    consumerTag: string, deliveryTag: nat, exchange: string, redelivered: bool, routingKey: string)

  /** The methods the channel code tells apart; every other method is a Reply. */
  datatype Method =
    | Deliver(info: DeliverInfo)
    | Cancel(consumerTag: string)
    | ChannelClose
    | ConnectionClose
    | Reply(id: nat)

  datatype Payload =
    | MethodFrame(m: Method)
    | Header(bodySize: nat, properties: string)
    | Body(fragment: seq<byte>)

  datatype Frame = Frame(channel: ChannelId, payload: Payload)

  datatype Envelope = Envelope(channel: ChannelId, info: DeliverInfo, properties: string, body: seq<byte>)

  predicate IsReply(f: Frame) {
    f.payload.MethodFrame? && f.payload.m.Reply?
  }

  predicate IsDeliver(f: Frame) {
    f.payload.MethodFrame? && f.payload.m.Deliver?
  }

  /** The expected responses of a wait: deliver-or-cancel, or the reply to a request. */
  datatype Wanted = DeliverOrCancel | ReplyWith(ids: set<nat>)

  predicate Matches(m: Method, wanted: Wanted) {
    match wanted
    case DeliverOrCancel => m.Deliver? || m.Cancel?
    case ReplyWith(ids) => m.Reply? && m.id in ids
  }

  predicate IsExpected(f: Frame, channels: seq<ChannelId>, wanted: Wanted) {
    f.channel in channels && f.payload.MethodFrame? && Matches(f.payload.m, wanted)
  }

  /** The frames of one channel, in the order in which they stand. */
  function On(fs: seq<Frame>, c: ChannelId): seq<Frame> {
    if fs == [] then []
    else if fs[0].channel == c then [fs[0]] + On(fs[1..], c)
    else On(fs[1..], c)
  }

  /** The envelopes of one channel, in the order in which they stand. */
  function EnvelopesOn(es: seq<Envelope>, c: ChannelId): seq<Envelope> {
    if es == [] then []
    else if es[0].channel == c then [es[0]] + EnvelopesOn(es[1..], c)
    else EnvelopesOn(es[1..], c)
  }

  /** The frames left when the first k frames of channel c are taken away. */
  function DropOn(fs: seq<Frame>, c: ChannelId, k: nat): seq<Frame> {
    if fs == [] || k == 0 then fs
    else if fs[0].channel == c then DropOn(fs[1..], c, k - 1)
    else [fs[0]] + DropOn(fs[1..], c, k)
  }

  lemma {:induction false} OnConcat(a: seq<Frame>, b: seq<Frame>, c: ChannelId)
    ensures On(a + b, c) == On(a, c) + On(b, c)
  {
    if a == [] {
      assert a + b == b;
    } else {
      assert (a + b)[1..] == a[1..] + b;
      OnConcat(a[1..], b, c);
    }
  }

  lemma {:induction false} EnvelopesOnConcat(a: seq<Envelope>, b: seq<Envelope>, c: ChannelId)
    ensures EnvelopesOn(a + b, c) == EnvelopesOn(a, c) + EnvelopesOn(b, c)
  {
    if a == [] {
      assert a + b == b;
    } else {
      assert (a + b)[1..] == a[1..] + b;
      EnvelopesOnConcat(a[1..], b, c);
    }
  }

  /** Every frame of a projection stands on the channel and comes from the sequence. */
  lemma {:induction false} OnMembers(fs: seq<Frame>, c: ChannelId)
    ensures forall f :: f in On(fs, c) <==> f in fs && f.channel == c
  {
    if fs != [] {
      OnMembers(fs[1..], c);
      assert fs == [fs[0]] + fs[1..];
    }
  }

  /** The index of the first frame of a channel. */
  lemma {:induction false} OnFirst(fs: seq<Frame>, c: ChannelId) returns (j: nat)
    requires On(fs, c) != []
    ensures j < |fs| && fs[j] == On(fs, c)[0] && fs[j].channel == c
    ensures forall k :: 0 <= k < j ==> fs[k].channel != c
  {
    if fs[0].channel == c {
      j := 0;
    } else {
      j := OnFirst(fs[1..], c);
      j := j + 1;
    }
  }

  lemma {:induction false} OnNone(fs: seq<Frame>, c: ChannelId)
    requires forall f :: f in fs ==> f.channel != c
    ensures On(fs, c) == []
  {
    if fs != [] {
      OnNone(fs[1..], c);
    }
  }

  /** Taking frames away from channel c leaves every other channel alone, and the rest of c in order. */
  lemma {:induction false} OnDropOn(fs: seq<Frame>, c: ChannelId, k: nat, d: ChannelId)
    requires k <= |On(fs, c)|
    ensures On(DropOn(fs, c, k), d) == if d == c then On(fs, c)[k..] else On(fs, d)
    ensures |DropOn(fs, c, k)| == |fs| - k
  {
    if fs != [] && k != 0 {
      if fs[0].channel == c {
        OnDropOn(fs[1..], c, k - 1, d);
      } else {
        OnDropOn(fs[1..], c, k, d);
        var rest := DropOn(fs[1..], c, k);
        assert ([fs[0]] + rest)[1..] == rest;
      }
    }
  }

  lemma {:induction false} DropOnMembers(fs: seq<Frame>, c: ChannelId, k: nat)
    ensures forall f :: f in DropOn(fs, c, k) ==> f in fs
  {
    if fs != [] && k != 0 {
      DropOnMembers(fs[1..], c, if fs[0].channel == c then k - 1 else k);
    }
  }

  /** Erasing the first frame of channel c, which stands at index i, is DropOn. */
  lemma {:induction false} EraseIsDropOn(fs: seq<Frame>, i: nat, c: ChannelId)
    requires i < |fs| && fs[i].channel == c && On(fs[..i], c) == []
    ensures fs[..i] + fs[i + 1..] == DropOn(fs, c, 1)
    ensures On(fs, c) == [fs[i]] + On(fs[i + 1..], c)
  {
    if i == 0 {
      assert fs[..0] + fs[1..] == fs[1..];
    } else {
      assert fs[..i][0] == fs[0];
      assert fs[..i][1..] == fs[1..][..i - 1];
      assert fs[0].channel != c;
      EraseIsDropOn(fs[1..], i - 1, c);
      assert fs[1..][i..] == fs[i + 1..];
      assert fs[..i] + fs[i + 1..] == [fs[0]] + (fs[1..][..i - 1] + fs[1..][i..]);
    }
  }

  /**
   How far the reader of one channel has come inside the current message. On every channel a delivered
   message is a basic.deliver method frame, a content header and body frames whose lengths add up to the
   size in the header (content framing, section 4.2.6 of the AMQP 0-9-1 specification). A reply to a
   request may come between two messages.
   */
  datatype Phase =
    | Idle
    | AwaitHeader(info: DeliverInfo)
    | AwaitBody(info: DeliverInfo, properties: string, size: nat, received: seq<byte>)

  datatype Progress = Bad | Go(next: Phase, out: seq<Envelope>)

  /** One frame moves the reader on, and may complete one message. */
  function Advance(p: Phase, f: Frame): (r: Progress)
  {
    match p
    case Idle =>
      if IsDeliver(f) then Go(AwaitHeader(f.payload.m.info), [])
      else if IsReply(f) then Go(Idle, [])
      else Bad
    case AwaitHeader(info) =>
      if !f.payload.Header? then Bad
      else if f.payload.bodySize == 0 then Go(Idle, [Envelope(f.channel, info, f.payload.properties, [])])
      else Go(AwaitBody(info, f.payload.properties, f.payload.bodySize, []), [])
    case AwaitBody(info, properties, size, received) =>
      if !f.payload.Body? || |received| + |f.payload.fragment| > size then Bad
      else if |received| + |f.payload.fragment| == size then
        Go(Idle, [Envelope(f.channel, info, properties, received + f.payload.fragment)])
      else Go(AwaitBody(info, properties, size, received + f.payload.fragment), [])
  }

  /** fs is a well-formed continuation for a reader in phase p; the last message may still be incomplete. */
  predicate WellFormed(p: Phase, fs: seq<Frame>)
    decreases fs
  {
    fs == [] || (var s := Advance(p, fs[0]); s.Go? && WellFormed(s.next, fs[1..]))
  }

  /** The messages that a reader in phase p completes on fs. */
  function Messages(p: Phase, fs: seq<Frame>): seq<Envelope>
    decreases fs
  {
    if fs == [] || Advance(p, fs[0]).Bad? then []
    else Advance(p, fs[0]).out + Messages(Advance(p, fs[0]).next, fs[1..])
  }

  /** The number of frames up to the end of the first completed message. */
  function FirstLength(p: Phase, fs: seq<Frame>): (n: nat)
    requires Messages(p, fs) != []
    ensures 1 <= n <= |fs|
    decreases fs
  {
    if Advance(p, fs[0]).out != [] then 1 else 1 + FirstLength(Advance(p, fs[0]).next, fs[1..])
  }

  /** A reader that stops after a reads the rest exactly as if it had not stopped. */
  function PhaseAfter(p: Phase, fs: seq<Frame>): Phase
    decreases fs
  {
    if fs == [] || Advance(p, fs[0]).Bad? then p else PhaseAfter(Advance(p, fs[0]).next, fs[1..])
  }

  lemma ReadStep(p: Phase, f: Frame, fs: seq<Frame>)
    ensures WellFormed(p, [f] + fs) <==> Advance(p, f).Go? && WellFormed(Advance(p, f).next, fs)
    ensures Advance(p, f).Go? ==>
      && Messages(p, [f] + fs) == Advance(p, f).out + Messages(Advance(p, f).next, fs)
      && PhaseAfter(p, [f] + fs) == PhaseAfter(Advance(p, f).next, fs)
  {
    assert ([f] + fs)[1..] == fs;
  }

  lemma {:induction false} ReadConcat(p: Phase, a: seq<Frame>, b: seq<Frame>)
    ensures WellFormed(p, a + b) <==> WellFormed(p, a) && WellFormed(PhaseAfter(p, a), b)
    ensures WellFormed(p, a) ==> Messages(p, a + b) == Messages(p, a) + Messages(PhaseAfter(p, a), b)
    decreases a
  {
    if a == [] {
      assert a + b == b;
    } else {
      assert a + b == [a[0]] + (a[1..] + b) && a == [a[0]] + a[1..];
      var s := Advance(p, a[0]);
      ReadStep(p, a[0], a[1..]);
      ReadStep(p, a[0], a[1..] + b);
      if s.Go? {
        ReadConcat(s.next, a[1..], b);
        var x, y := Messages(s.next, a[1..]), Messages(PhaseAfter(s.next, a[1..]), b);
        assert s.out + (x + y) == (s.out + x) + y;
      }
    }
  }

  /** A reply between two messages does not disturb the reader. */
  lemma {:induction false} ReplyIsTransparent(p: Phase, a: seq<Frame>, reply: Frame, b: seq<Frame>)
    requires IsReply(reply) && WellFormed(p, a + [reply] + b)
    ensures WellFormed(p, a + b) && Messages(p, a + b) == Messages(p, a + [reply] + b)
  {
    assert a + [reply] + b == a + ([reply] + b);
    ReadConcat(p, a, [reply] + b);
    ReadStep(PhaseAfter(p, a), reply, b);
    ReadConcat(p, a, b);
  }

  /** A well-formed stream holds content frames and replies only. */
  lemma {:induction false} WellFormedFrames(p: Phase, fs: seq<Frame>)
    requires WellFormed(p, fs)
    ensures forall f :: f in fs && f.payload.MethodFrame? ==> IsDeliver(f) || IsReply(f)
    decreases fs
  {
    if fs != [] {
      WellFormedFrames(Advance(p, fs[0]).next, fs[1..]);
    }
  }

  /** After the frames of the first message the reader is idle again, and it has read that message only. */
  lemma {:induction false} FirstSplits(p: Phase, fs: seq<Frame>)
    requires Messages(p, fs) != []
    ensures var n := FirstLength(p, fs);
      PhaseAfter(p, fs[..n]) == Idle && Messages(p, fs[..n]) == [Messages(p, fs)[0]]
      && Messages(p, fs) == [Messages(p, fs)[0]] + Messages(Idle, fs[n..])
    decreases fs
  {
    var s := Advance(p, fs[0]);
    var n := FirstLength(p, fs);
    assert fs[..n][0] == fs[0];
    if s.out != [] {
      assert fs[..1][1..] == [];
    } else {
      FirstSplits(s.next, fs[1..]);
      assert fs[..n][1..] == fs[1..][..n - 1];
      assert fs[1..][n - 1..] == fs[n..];
    }
  }

  // -------------------------------------------------------------------------------------
  // The framing that a broker produces, as an independent definition of a well-formed stream
  // -------------------------------------------------------------------------------------

  function Flatten(fragments: seq<seq<byte>>): seq<byte> {
    if fragments == [] then [] else fragments[0] + Flatten(fragments[1..])
  }

  /** A body of length n is cut into fragments; a body of length 0 has no body frame. */
  predicate Cuts(fragments: seq<seq<byte>>, body: seq<byte>) {
    && Flatten(fragments) == body
    && (body == [] ==> fragments == [])
    && (fragments != [] ==> |fragments[|fragments| - 1]| != 0)
  }

  function BodyFrames(c: ChannelId, fragments: seq<seq<byte>>): seq<Frame> {
    if fragments == [] then [] else [Frame(c, Body(fragments[0]))] + BodyFrames(c, fragments[1..])
  }

  function MessageFrames(e: Envelope, fragments: seq<seq<byte>>): seq<Frame> {
    [Frame(e.channel, MethodFrame(Deliver(e.info))), Frame(e.channel, Header(|e.body|, e.properties))]
    + BodyFrames(e.channel, fragments)
  }

  function StreamFrames(es: seq<Envelope>, cuts: seq<seq<seq<byte>>>): seq<Frame>
    requires |es| == |cuts|
  {
    if es == [] then [] else MessageFrames(es[0], cuts[0]) + StreamFrames(es[1..], cuts[1..])
  }

  lemma {:induction false} LastFragmentOfTail(fragments: seq<seq<byte>>)
    requires |fragments| > 1 && |fragments[|fragments| - 1]| != 0
    ensures Flatten(fragments[1..]) != []
  {
    var tail := fragments[1..];
    if |tail| > 1 {
      assert tail[|tail| - 1] == fragments[|fragments| - 1];
      LastFragmentOfTail(tail);
    } else {
      assert tail == [fragments[1]] && Flatten(tail) == fragments[1] + Flatten(tail[1..]);
    }
  }

  lemma {:induction false} LastFragmentNonEmpty(fragments: seq<seq<byte>>)
    requires fragments != [] && |fragments[|fragments| - 1]| != 0
    ensures Flatten(fragments) != []
  {
    if |fragments| > 1 {
      LastFragmentOfTail(fragments);
    }
  }

  lemma {:induction false} BodyIsRead(e: Envelope, received: seq<byte>, fragments: seq<seq<byte>>, rest: seq<Frame>)
    requires fragments != [] && |fragments[|fragments| - 1]| != 0
    requires received + Flatten(fragments) == e.body
    ensures var p := AwaitBody(e.info, e.properties, |e.body|, received);
      var fs := BodyFrames(e.channel, fragments) + rest;
      && Messages(p, fs) == [e] + Messages(Idle, rest)
      && (WellFormed(p, fs) <==> WellFormed(Idle, rest))
    decreases fragments
  {
    var p := AwaitBody(e.info, e.properties, |e.body|, received);
    var fs := BodyFrames(e.channel, fragments) + rest;
    assert fs[0] == Frame(e.channel, Body(fragments[0]));
    assert fs[1..] == BodyFrames(e.channel, fragments[1..]) + rest;
    if |fragments| == 1 {
      assert fragments[1..] == [];
      assert received + fragments[0] == e.body;
      assert fs[1..] == rest;
    } else {
      LastFragmentOfTail(fragments);
      assert (received + fragments[0]) + Flatten(fragments[1..]) == e.body;
      assert fragments[1..][|fragments[1..]| - 1] == fragments[|fragments| - 1];
      BodyIsRead(e, received + fragments[0], fragments[1..], rest);
    }
  }

  lemma {:induction false} MessageIsRead(e: Envelope, fragments: seq<seq<byte>>, rest: seq<Frame>)
    requires Cuts(fragments, e.body)
    ensures var fs := MessageFrames(e, fragments) + rest;
      && Messages(Idle, fs) == [e] + Messages(Idle, rest)
      && (WellFormed(Idle, fs) <==> WellFormed(Idle, rest))
  {
    var fs := MessageFrames(e, fragments) + rest;
    var bodies := BodyFrames(e.channel, fragments) + rest;
    assert fs == [fs[0]] + ([Frame(e.channel, Header(|e.body|, e.properties))] + bodies);
    assert fs[1..][1..] == bodies;
    if fragments == [] {
      assert bodies == rest;
    } else {
      LastFragmentNonEmpty(fragments);
      BodyIsRead(e, [], fragments, rest);
    }
  }

  /** A way to cut the bodies of some messages. */
  predicate Framed(es: seq<Envelope>, cuts: seq<seq<seq<byte>>>) {
    |es| == |cuts| && forall i :: 0 <= i < |es| ==> Cuts(cuts[i], es[i].body)
  }

  lemma {:induction false} NoBodyReplies(c: ChannelId, fragments: seq<seq<byte>>)
    ensures forall f :: f in BodyFrames(c, fragments) ==> !IsReply(f)
  {
    if fragments != [] {
      NoBodyReplies(c, fragments[1..]);
    }
  }

  lemma {:induction false} NoStreamReplies(es: seq<Envelope>, cuts: seq<seq<seq<byte>>>)
    requires |es| == |cuts|
    ensures forall f :: f in StreamFrames(es, cuts) ==> !IsReply(f)
  {
    if es != [] {
      NoBodyReplies(es[0].channel, cuts[0]);
      NoStreamReplies(es[1..], cuts[1..]);
    }
  }

  /**
   Whatever way the broker cuts the bodies, the reader recovers exactly the messages that were
   framed, in order, each body being the concatenation of its fragments.
   */
  lemma {:induction false} ReaderInvertsFraming(es: seq<Envelope>, cuts: seq<seq<seq<byte>>>)
    requires Framed(es, cuts)
    ensures WellFormed(Idle, StreamFrames(es, cuts))
    ensures Messages(Idle, StreamFrames(es, cuts)) == es
  {
    if es != [] {
      ReaderInvertsFraming(es[1..], cuts[1..]);
      assert Cuts(cuts[0], es[0].body);
      MessageIsRead(es[0], cuts[0], StreamFrames(es[1..], cuts[1..]));
    }
  }

  // -------------------------------------------------------------------------------------
  // The scan for a complete message among queued frames
  // -------------------------------------------------------------------------------------

  datatype ScanResult = Complete | Incomplete | Violation

  function ScanBody(fs: seq<Frame>, size: nat, received: nat): ScanResult {
    if received >= size then Complete
    else if fs == [] then Incomplete
    else if !fs[0].payload.Body? then Violation
    else ScanBody(fs[1..], size, received + |fs[0].payload.fragment|)
  }

  /** The scan over the frames of one channel, with the branches of the source. */
  function Scan(fs: seq<Frame>): ScanResult {
    if fs == [] then Incomplete
    else if !IsDeliver(fs[0]) then Scan(fs[1..])
    else if |fs| == 1 then Incomplete
    else if !fs[1].payload.Header? then Violation
    else ScanBody(fs[2..], fs[1].payload.bodySize, 0)
  }

  lemma ScanStep(f: Frame, fs: seq<Frame>)
    ensures !IsDeliver(f) ==> Scan([f] + fs) == Scan(fs)
    ensures IsDeliver(f) && fs == [] ==> Scan([f] + fs) == Incomplete
    ensures IsDeliver(f) && fs != [] && !fs[0].payload.Header? ==> Scan([f] + fs) == Violation
    ensures IsDeliver(f) && fs != [] && fs[0].payload.Header? ==>
      Scan([f] + fs) == ScanBody(fs[1..], fs[0].payload.bodySize, 0)
  {
    assert ([f] + fs)[1..] == fs;
    assert fs != [] ==> ([f] + fs)[2..] == fs[1..];
  }

  lemma {:induction false} ScanBodyPredicts(p: Phase, fs: seq<Frame>)
    requires p.AwaitBody? && |p.received| < p.size && WellFormed(p, fs)
    ensures ScanBody(fs, p.size, |p.received|) == if Messages(p, fs) != [] then Complete else Incomplete
    decreases fs
  {
    if fs != [] {
      var s := Advance(p, fs[0]);
      if s.next.AwaitBody? {
        ScanBodyPredicts(s.next, fs[1..]);
      }
    }
  }

  /** The scan answers exactly whether the reader can finish a message from these frames alone. */
  lemma {:induction false} ScanPredicts(fs: seq<Frame>)
    requires WellFormed(Idle, fs) && forall f :: f in fs ==> !IsReply(f)
    ensures Scan(fs) == if Messages(Idle, fs) != [] then Complete else Incomplete
  {
    if fs != [] {
      assert !IsReply(fs[0]);
      var p := Advance(Idle, fs[0]).next;
      if |fs| > 1 {
        assert fs[1..][1..] == fs[2..] && fs[1..][0] == fs[1];
        var q := Advance(p, fs[1]).next;
        if q.AwaitBody? {
          ScanBodyPredicts(q, fs[2..]);
        }
      }
    }
  }
}
