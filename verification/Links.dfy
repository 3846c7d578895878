// One direction of a connection: the sender's outbuffer, the bytes in flight, and the
// receiver's inbuffer, under any interleaving of queueing, partial sends and receives.
module Links {
  import opened Basics
  import opened Wire
  import opened Buffers
  import opened Framing

  datatype Event =
    | Queue(frame: Frame)
    | Flush(nsent: int)
    | Recv(taken: nat)

  datatype Link = Link(
    queued: seq<Frame>,
    out: seq<byte>,
    wire: seq<byte>,
    delivered: seq<byte>,
    inb: seq<byte>,
    dispatched: seq<Frame>
  )

  const EMPTY := Link([], [], [], [], [], [])

  function Clip(k: int, bound: nat): nat
  {
    if k < 0 then 0 else if k < bound then k else bound
  }

  function Step(l: Link, e: Event, n: nat): Link
    requires 0 < n
  {
    match e
    case Queue(fs) => l.(queued := l.queued + [fs], out := l.out + EncodeFrame(fs))
    case Flush(nsent) =>
      var k := Clip(nsent, |l.out|);
      l.(out := l.out[k..], wire := l.wire + l.out[..k])
    case Recv(taken) =>
      var k := Clip(taken, |l.wire|);
      var fed := Receive(Fed(l.dispatched, l.inb), l.wire[..k], n);
      l.(wire := l.wire[k..], delivered := l.delivered + l.wire[..k],
         inb := fed.rest, dispatched := fed.frames)
  }

  function Run(l: Link, es: seq<Event>, n: nat): Link
    requires 0 < n
    decreases |es|
  {
    if es == [] then l else Run(Step(l, es[0], n), es[1..], n)
  }

  predicate Legal(es: seq<Event>, n: nat)
  {
    forall e <- es :: e.Queue? ==> WellFormedFrame(e.frame, n)
  }

  ghost predicate Inv(l: Link, n: nat)
    requires 0 < n
  {
    && WellFormed(l.queued, n)
    && EncodeAll(l.queued) == l.delivered + l.wire + l.out
    && Feed(l.delivered, n) == Fed(l.dispatched, l.inb)
  }

  lemma EmptyInv(n: nat)
    requires 0 < n
    ensures Inv(EMPTY, n)
  {
  }

  lemma StepInv(l: Link, e: Event, n: nat)
    requires 0 < n && Inv(l, n)
    requires e.Queue? ==> WellFormedFrame(e.frame, n)
    ensures Inv(Step(l, e, n), n)
  {
    hide Feed, EncodeFrame;
    match e
    case Queue(fs) =>
      EncodeAllAppend(l.queued, [fs]);
      assert [fs][1..] == [];
      assert EncodeAll([fs]) == EncodeFrame(fs) + EncodeAll([]) == EncodeFrame(fs);
      Reassociate(l.delivered + l.wire, l.out, EncodeFrame(fs));
    case Flush(nsent) =>
      var k := Clip(nsent, |l.out|);
      assert l.out == l.out[..k] + l.out[k..];
      assert l.delivered + l.wire + l.out == l.delivered + (l.wire + l.out[..k]) + l.out[k..];
    case Recv(taken) =>
      var k := Clip(taken, |l.wire|);
      assert l.wire == l.wire[..k] + l.wire[k..];
      assert l.delivered + l.wire + l.out == (l.delivered + l.wire[..k]) + l.wire[k..] + l.out;
      FeedSplit(l.delivered, l.wire[..k], n);
  }

  lemma {:induction false} RunInv(l: Link, es: seq<Event>, n: nat)
    requires 0 < n && Inv(l, n) && Legal(es, n)
    ensures Inv(Run(l, es, n), n)
    decreases |es|
  {
    hide Inv, Step;
    if es != [] {
      StepInv(l, es[0], n);
      RunInv(Step(l, es[0], n), es[1..], n);
    }
  }

  // At every moment of every run the receiver has dispatched a prefix of what was queued,
  // and its inbuffer holds only a proper part of the next frame.
  lemma DispatchedIsPrefix(es: seq<Event>, n: nat)
    requires 0 < n && Legal(es, n)
    ensures var l := Run(EMPTY, es, n);
      && l.dispatched <= l.queued
      && var k := |l.dispatched|;
      && EncodeAll(l.queued[k..]) == l.inb + l.wire + l.out
      && (k < |l.queued| ==> |l.inb| < |EncodeFrame(l.queued[k])|)
  {
    EmptyInv(n);
    RunInv(EMPTY, es, n);
    InvPrefix(Run(EMPTY, es, n), n);
  }

  lemma InvPrefix(l: Link, n: nat)
    requires 0 < n && Inv(l, n)
    ensures l.dispatched <= l.queued
    ensures EncodeAll(l.queued[|l.dispatched|..]) == l.inb + l.wire + l.out
    ensures |l.dispatched| < |l.queued| ==> |l.inb| < |EncodeFrame(l.queued[|l.dispatched|])|
    ensures |l.dispatched| == |l.queued| ==> l.inb == []
  {
    hide Feed, EncodeFrame;
    Reassociate(l.delivered, l.wire, l.out);
    assert l.delivered <= EncodeAll(l.queued);
    var k := FeedPrefix(l.queued, l.delivered, n);
    var done, todo := l.queued[..k], l.queued[k..];
    assert l.queued == done + todo;
    EncodeAllAppend(done, todo);
    assert l.delivered == EncodeAll(done) + l.inb;
    assert EncodeAll(done) + EncodeAll(todo) == EncodeAll(done) + (l.inb + l.wire + l.out);
    CancelPrefix(EncodeAll(done), EncodeAll(todo), l.inb + l.wire + l.out);
  }

  lemma CancelPrefix<T>(a: seq<T>, b: seq<T>, c: seq<T>)
    requires a + b == a + c
    ensures b == c
  {
    assert b == (a + b)[|a|..];
    assert c == (a + c)[|a|..];
  }

  // Once the bytes have drained, everything queued has been dispatched.
  lemma DrainedMeansAll(es: seq<Event>, n: nat)
    requires 0 < n && Legal(es, n)
    requires Run(EMPTY, es, n).out == [] && Run(EMPTY, es, n).wire == []
    ensures Run(EMPTY, es, n).dispatched == Run(EMPTY, es, n).queued
    ensures Run(EMPTY, es, n).inb == []
  {
    hide Feed, EncodeFrame;
    var l := Run(EMPTY, es, n);
    EmptyInv(n);
    RunInv(EMPTY, es, n);
    assert l.delivered == EncodeAll(l.queued) + [] by {
      assert l.delivered + [] + [] == l.delivered;
    }
    FeedEncoded(l.queued, [], n);
    EmptyUndecodable(n);
    assert Feed([], n) == Fed([], []) by { EmptyInv(n); }
    assert l.queued + [] == l.queued;
  }

  // --------------------------------------------------------- typed messages

  // What a run queues.
  function QueuedBy(es: seq<Event>): seq<Frame>
    decreases |es|
  {
    if es == [] then []
    else (if es[0].Queue? then [es[0].frame] else []) + QueuedBy(es[1..])
  }

  lemma {:induction false} RunQueues(l: Link, es: seq<Event>, n: nat)
    requires 0 < n
    ensures Run(l, es, n).queued == l.queued + QueuedBy(es)
    decreases |es|
  {
    if es == [] {
      assert l.queued + [] == l.queued;
    } else {
      RunQueues(Step(l, es[0], n), es[1..], n);
      var first := if es[0].Queue? then [es[0].frame] else [];
      assert l.queued + [] == l.queued;
      Reassociate(l.queued, first, QueuedBy(es[1..]));
      hide Receive, EncodeFrame;
    }
  }

  lemma {:induction false} QueuedWellFormed(es: seq<Event>, n: nat)
    ensures WellFormed(QueuedBy(es), n) <==> Legal(es, n)
    decreases |es|
  {
    hide WellFormedFrame;
    if es != [] {
      QueuedWellFormed(es[1..], n);
      assert es == [es[0]] + es[1..];
      var first := if es[0].Queue? then [es[0].frame] else [];
      assert forall f :: f in QueuedBy(es) <==> f in first || f in QueuedBy(es[1..]);
    }
  }

  // The first |frames| of the messages, in order; all of them if the flag says so.
  ghost predicate Arrived<M>(frames: seq<Frame>, messages: seq<M>, parse: Frame -> Option<M>, all: bool)
  {
    && |frames| <= |messages| && (all ==> |frames| == |messages|)
    && forall i :: 0 <= i < |frames| ==> parse(frames[i]) == Some(messages[i])
  }

  lemma ArrivedFrames(es: seq<Event>, n: nat, frames: seq<Frame>)
    requires 0 < n && QueuedBy(es) == frames && WellFormed(frames, n)
    ensures var l := Run(EMPTY, es, n);
      l.dispatched <= frames && (l.out == [] && l.wire == [] ==> l.dispatched == frames)
  {
    hide Run, QueuedBy, WellFormed;
    QueuedWellFormed(es, n);
    RunQueues(EMPTY, es, n);
    assert [] + frames == frames;
    DispatchedIsPrefix(es, n);
    if Run(EMPTY, es, n).out == [] && Run(EMPTY, es, n).wire == [] {
      DrainedMeansAll(es, n);
    }
  }

  // End to end for requests: queued by send_request, sent in any pieces, received in any
  // slices, all interleaved. At every moment the handler has been given the first so many of
  // the requests, in order; and once the bytes have drained, every one of them.
  lemma RequestsArrive(es: seq<Event>, reqs: seq<IMRequest>)
    requires QueuedBy(es) == RequestFrames(reqs)
    ensures var l := Run(EMPTY, es, REQUEST_FIELDS);
      Arrived(l.dispatched, reqs, FrameToRequest, l.out == [] && l.wire == [])
  {
    hide Run, QueuedBy, FrameToRequest;
    ArrivedFrames(es, REQUEST_FIELDS, RequestFrames(reqs));
    RequestFramesParse(reqs);
  }

  // The same for responses.
  lemma ResponsesArrive(es: seq<Event>, rsps: seq<IMResponse>)
    requires QueuedBy(es) == ResponseFrames(rsps)
    ensures var l := Run(EMPTY, es, RESPONSE_FIELDS);
      Arrived(l.dispatched, rsps, FrameToResponse, l.out == [] && l.wire == [])
  {
    hide Run, QueuedBy, FrameToResponse;
    ArrivedFrames(es, RESPONSE_FIELDS, ResponseFrames(rsps));
    ResponseFramesParse(rsps);
  }

  // Receiving nothing changes nothing when no whole frame is waiting.
  lemma IdleReceive(dispatched: seq<Frame>, inb: seq<byte>, wire: seq<byte>, n: nat)
    requires 0 < n && DecodeFrame(inb, n).None?
    ensures Receive(Fed(dispatched, inb), wire[..0], n) == Fed(dispatched, inb)
    ensures wire[0..] == wire
  {
    hide DecodeFrame;
    assert inb + wire[..0] == inb;
  }

  // The objects that carry out the steps.
  class Connection {
    const fields: nat
    const outbuffer: ImBuffer
    const inbuffer: ImBuffer
    var wire: seq<byte>
    var dispatched: seq<Frame>
    ghost var queued: seq<Frame>

    // Between calls no whole frame is waiting in the receive buffer.
    ghost predicate Valid()
      reads this, outbuffer, outbuffer.data, inbuffer, inbuffer.data
    {
      BuffersValid() && DecodeFrame(inbuffer.Pending(), fields).None?
    }

    ghost predicate BuffersValid()
      reads this, outbuffer, outbuffer.data, inbuffer, inbuffer.data
    {
      && 0 < fields
      && outbuffer != inbuffer && outbuffer.data != inbuffer.data
      && outbuffer.Valid() && inbuffer.Valid()
    }

    ghost function State(): Link
      requires BuffersValid()
      reads this, outbuffer, outbuffer.data, inbuffer, inbuffer.data
    {
      Link(queued, outbuffer.Pending(), wire, inbuffer.appended, inbuffer.Pending(), dispatched)
    }

    constructor (fields: nat)
      requires 0 < fields
      ensures Valid() && State() == EMPTY && this.fields == fields
      ensures fresh(outbuffer) && fresh(inbuffer) && fresh(outbuffer.data) && fresh(inbuffer.data)
    {
      this.fields := fields;
      var o := new ImBuffer(OUT_BUFFER_DEFAULT_SIZE);
      var i := new ImBuffer(MSG_LIMIT);
      outbuffer, inbuffer := o, i;
      wire, dispatched, queued := [], [], [];
      EmptyUndecodable(fields);
    }

    // send_request on the client, send_response on the server.
    method Send(frame: Frame)
      requires Valid() && WellFormedFrame(frame, fields)
      modifies this, outbuffer, outbuffer.data
      ensures Valid() && State() == Step(old(State()), Queue(frame), fields)
      ensures outbuffer.data == old(outbuffer.data) || fresh(outbuffer.data)
    {
      hide EncodeFrame;
      outbuffer.Append(EncodeFrame(frame));
      queued := queued + [frame];
    }

    // One EPOLLOUT: the kernel takes nsent bytes, or reports an error with -1.
    method FlushOut(nsent: int) returns (inputOnly: bool)
      requires Valid()
      requires -1 <= nsent <= |outbuffer.Pending()|
      modifies this, outbuffer, outbuffer.data
      ensures Valid() && State() == Step(old(State()), Flush(nsent), fields)
      ensures inputOnly <==> outbuffer.Pending() == []
      ensures outbuffer.data == old(outbuffer.data)
    {
      hide DecodeFrame;
      var k := Clip(nsent, outbuffer.end - outbuffer.start);
      assert outbuffer.data[outbuffer.start..outbuffer.start + k] == outbuffer.Pending()[..k];
      wire := wire + outbuffer.data[outbuffer.start..outbuffer.start + k];
      ghost var overlapped;
      inputOnly, overlapped := outbuffer.SendPending(nsent);
    }

    // im_receive_command: the kernel hands over at most `limit` bytes. The receive buffer
    // always has room, so a zero count only means that there was nothing to hand over.
    method ReceiveCommand(limit: nat) returns (taken: nat, closed: bool)
      requires Valid()
      modifies this, inbuffer, inbuffer.data
      ensures Valid() && State() == Step(old(State()), Recv(taken), fields)
      ensures taken <= limit && taken <= |old(wire)|
      ensures closed <==> limit == 0 || old(wire) == []
      ensures closed <==> taken == 0
      ensures inbuffer.data == old(inbuffer.data) || fresh(inbuffer.data)
    {
      hide EncodeFrame, DecodeFrame, Feed;
      var room := inbuffer.MakeRoom();
      taken := Clip(limit, Clip(room, |wire|));
      closed := taken == 0;
      if closed {
        IdleReceive(dispatched, inbuffer.Pending(), wire, fields);
        return;
      }
      inbuffer.CopyIn(wire[..taken]);
      wire := wire[taken..];
      DecodePending();
    }

    // The handler loop: one decoded frame per round, until the bytes run out or no frame decodes.
    method DecodePending()
      requires BuffersValid()
      modifies this`dispatched, inbuffer`start, inbuffer`drained
      ensures Valid()
      ensures var fed := Feed(old(inbuffer.Pending()), fields);
        dispatched == old(dispatched) + fed.frames && inbuffer.Pending() == fed.rest
    {
      hide EncodeFrame, DecodeFrame;
      ghost var goal := Feed(inbuffer.Pending(), fields);
      while inbuffer.start != inbuffer.end
        invariant BuffersValid()
        invariant goal.rest == Feed(inbuffer.Pending(), fields).rest
        invariant old(dispatched) + goal.frames == dispatched + Feed(inbuffer.Pending(), fields).frames
        decreases inbuffer.end - inbuffer.start
      {
        var parsed := DecodeFrame(inbuffer.data[inbuffer.start..inbuffer.end], fields);
        if parsed.None? { return; }
        ghost var tail := Feed(inbuffer.Pending()[parsed.value.used..], fields).frames;
        Reassociate(dispatched, [parsed.value.value], tail);
        dispatched := dispatched + [parsed.value.value];
        inbuffer.Consume(parsed.value.used);
      }
      EmptyUndecodable(fields);
    }
  }
}
