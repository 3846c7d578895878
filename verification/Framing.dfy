// From requests to bytes and back: what the receive loop dispatches does not depend on
// how the bytes were cut on the way (lib/socket.c, serverlib/command.c, clientlib/command.c).
module Framing {
  import opened Basics
  import opened Wire

  // The frames found at the front of a byte string, and what is left undecoded.
  datatype Fed = Fed(frames: seq<Frame>, rest: seq<byte>)

  function Feed(bs: seq<byte>, n: nat): Fed
    requires 0 < n
    decreases |bs|
  {
    match DecodeFrame(bs, n)
    case None => Fed([], bs)
    case Some(d) =>
      var tail := Feed(bs[d.used..], n);
      Fed([d.value] + tail.frames, tail.rest)
  }

  // One recv: the slice is put behind the bytes that were left over, then decoded.
  function Receive(state: Fed, slice: seq<byte>, n: nat): Fed
    requires 0 < n
  {
    var fed := Feed(state.rest + slice, n);
    Fed(state.frames + fed.frames, fed.rest)
  }

  function ReceiveAll(state: Fed, slices: seq<seq<byte>>, n: nat): Fed
    requires 0 < n
    decreases |slices|
  {
    if slices == [] then state else ReceiveAll(Receive(state, slices[0], n), slices[1..], n)
  }

  function EncodeAll(frames: seq<Frame>): seq<byte>
  {
    if frames == [] then [] else EncodeFrame(frames[0]) + EncodeAll(frames[1..])
  }

  predicate WellFormed(frames: seq<Frame>, n: nat)
  {
    forall fs <- frames :: WellFormedFrame(fs, n)
  }

  // ------------------------------------------------ slicing is irrelevant

  // Holds for arbitrary bytes, whether or not they are the encoding of anything.
  lemma {:induction false} FeedSplit(a: seq<byte>, b: seq<byte>, n: nat)
    requires 0 < n
    ensures Feed(a + b, n) == Receive(Feed(a, n), b, n)
    decreases |a|
  {
    hide DecodeFrame;
    if DecodeFrame(a, n).Some? {
      var d := DecodeFrame(a, n).value;
      FrameStable(a, b, n);
      assert (a + b)[d.used..] == a[d.used..] + b;
      FeedSplit(a[d.used..], b, n);
    }
  }

  lemma {:induction false} FeedLeavesUndecodable(bs: seq<byte>, n: nat)
    requires 0 < n
    ensures DecodeFrame(Feed(bs, n).rest, n).None?
    ensures Feed(Feed(bs, n).rest, n) == Fed([], Feed(bs, n).rest)
    decreases |bs|
  {
    hide DecodeFrame;
    match DecodeFrame(bs, n)
    case None =>
    case Some(d) => FeedLeavesUndecodable(bs[d.used..], n);
  }

  lemma {:induction false} SlicingIrrelevantFrom(head: seq<byte>, slices: seq<seq<byte>>, n: nat)
    requires 0 < n
    ensures ReceiveAll(Feed(head, n), slices, n) == Feed(head + Flatten(slices), n)
    decreases |slices|
  {
    hide Feed;
    if slices == [] {
      assert head + Flatten(slices) == head;
    } else {
      FeedSplit(head, slices[0], n);
      SlicingIrrelevantFrom(head + slices[0], slices[1..], n);
      assert head + (slices[0] + Flatten(slices[1..])) == (head + slices[0]) + Flatten(slices[1..]);
    }
  }

  // Two ways of cutting the same bytes dispatch the same frames and leave the same suffix.
  lemma SlicingIrrelevant(xs: seq<seq<byte>>, ys: seq<seq<byte>>, n: nat)
    requires 0 < n && Flatten(xs) == Flatten(ys)
    ensures ReceiveAll(Fed([], []), xs, n) == ReceiveAll(Fed([], []), ys, n)
  {
    SlicingIrrelevantFrom([], xs, n);
    SlicingIrrelevantFrom([], ys, n);
    assert Feed([], n) == Fed([], []);
    assert [] + Flatten(xs) == Flatten(xs) == [] + Flatten(ys);
  }

  // ------------------------------------------- encoded streams come back

  lemma {:induction false} EncodeAllAppend(a: seq<Frame>, b: seq<Frame>)
    ensures EncodeAll(a + b) == EncodeAll(a) + EncodeAll(b)
  {
    if a == [] {
      assert a + b == b;
    } else {
      assert (a + b)[1..] == a[1..] + b;
      EncodeAllAppend(a[1..], b);
    }
  }

  lemma FeedFrame(fs: Frame, tail: seq<byte>, n: nat)
    requires 0 < n && WellFormedFrame(fs, n)
    ensures Feed(EncodeFrame(fs) + tail, n) == Fed([fs] + Feed(tail, n).frames, Feed(tail, n).rest)
  {
    hide DecodeFrame, EncodeFrame;
    FrameRoundTrip(fs, n, tail);
    assert (EncodeFrame(fs) + tail)[|EncodeFrame(fs)|..] == tail;
  }

  lemma {:induction false} FeedEncoded(frames: seq<Frame>, tail: seq<byte>, n: nat)
    requires 0 < n && WellFormed(frames, n)
    ensures Feed(EncodeAll(frames) + tail, n)
         == Fed(frames + Feed(tail, n).frames, Feed(tail, n).rest)
    decreases |frames|
  {
    hide Feed, EncodeFrame;
    if frames == [] {
      assert EncodeAll(frames) + tail == tail;
    } else {
      FeedFrame(frames[0], EncodeAll(frames[1..]) + tail, n);
      FeedEncoded(frames[1..], tail, n);
      Reassociate(EncodeFrame(frames[0]), EncodeAll(frames[1..]), tail);
      Reassociate([frames[0]], frames[1..], Feed(tail, n).frames);
    }
  }

  // Of the stream of these frames, p is the encoding of the first k followed by a proper
  // part of the next one, and decoding p yields exactly those k and leaves that part.
  ghost predicate WholeFrames(frames: seq<Frame>, p: seq<byte>, n: nat, k: nat)
    requires 0 < n
  {
    && k <= |frames|
    && Feed(p, n).frames == frames[..k]
    && p == EncodeAll(frames[..k]) + Feed(p, n).rest
    && Feed(p, n).rest <= EncodeAll(frames[k..])
    && (if k < |frames| then |Feed(p, n).rest| < |EncodeFrame(frames[k])| else Feed(p, n).rest == [])
  }

  lemma OneMoreFrame(fs: Frame, frames: seq<Frame>, p: seq<byte>, n: nat, k: nat)
    requires 0 < n && WellFormedFrame(fs, n) && WholeFrames(frames, p, n, k)
    ensures WholeFrames([fs] + frames, EncodeFrame(fs) + p, n, k + 1)
  {
    hide Feed, EncodeFrame;
    var all := [fs] + frames;
    FeedFrame(fs, p, n);
    assert all[..k + 1] == [fs] + frames[..k];
    assert all[..k + 1][1..] == frames[..k];
    assert all[k + 1..] == frames[k..];
    Reassociate(EncodeFrame(fs), EncodeAll(frames[..k]), Feed(p, n).rest);
  }

  lemma PartialFirst(frames: seq<Frame>, p: seq<byte>, n: nat)
    requires 0 < n && WellFormed(frames, n) && p <= EncodeAll(frames)
    requires frames == [] || |p| < |EncodeFrame(frames[0])|
    ensures WholeFrames(frames, p, n, 0)
  {
    hide DecodeFrame, EncodeFrame;
    if frames == [] {
      EmptyUndecodable(n);
    } else {
      assert p == EncodeFrame(frames[0])[..|p|];
      FramePrefixUndecodable(frames[0], n, |p|);
    }
  }

  // Every prefix of an encoded stream splits that way.
  lemma {:induction false} FeedPrefix(frames: seq<Frame>, p: seq<byte>, n: nat) returns (k: nat)
    requires 0 < n && WellFormed(frames, n) && p <= EncodeAll(frames)
    ensures WholeFrames(frames, p, n, k)
    decreases |frames|
  {
    hide DecodeFrame, EncodeFrame, WholeFrames;
    if frames == [] || |p| < |EncodeFrame(frames[0])| {
      k := 0;
      PartialFirst(frames, p, n);
    } else {
      var first := EncodeFrame(frames[0]);
      var rest := p[|first|..];
      assert p == first + rest;
      assert rest <= EncodeAll(frames[1..]);
      var m := FeedPrefix(frames[1..], rest, n);
      OneMoreFrame(frames[0], frames[1..], rest, n, m);
      assert frames == [frames[0]] + frames[1..];
      k := m + 1;
    }
  }

  lemma EmptyUndecodable(n: nat)
    requires 0 < n
    ensures DecodeFrame([], n).None?
  {
  }

  // End to end: frames encoded one after another and delivered in any slices are
  // dispatched exactly, in order, and nothing is left over.
  lemma StreamRoundTrip(frames: seq<Frame>, slices: seq<seq<byte>>, n: nat)
    requires 0 < n && WellFormed(frames, n) && Flatten(slices) == EncodeAll(frames)
    ensures ReceiveAll(Fed([], []), slices, n) == Fed(frames, [])
  {
    hide DecodeFrame, EncodeFrame;
    EmptyUndecodable(n);
    SlicingIrrelevantFrom([], slices, n);
    assert [] + Flatten(slices) == EncodeAll(frames) + [];
    FeedEncoded(frames, [], n);
    assert frames + [] == frames;
  }

  function RequestFrames(reqs: seq<IMRequest>): (frames: seq<Frame>)
    ensures |frames| == |reqs|
    ensures forall i :: 0 <= i < |reqs| ==> frames[i] == RequestToFrame(reqs[i])
  {
    if reqs == [] then [] else [RequestToFrame(reqs[0])] + RequestFrames(reqs[1..])
  }

  function ResponseFrames(rsps: seq<IMResponse>): (frames: seq<Frame>)
    ensures |frames| == |rsps|
    ensures forall i :: 0 <= i < |rsps| ==> frames[i] == ResponseToFrame(rsps[i])
  {
    if rsps == [] then [] else [ResponseToFrame(rsps[0])] + ResponseFrames(rsps[1..])
  }

  lemma RequestFramesParse(reqs: seq<IMRequest>)
    ensures forall i :: 0 <= i < |reqs| ==> FrameToRequest(RequestFrames(reqs)[i]) == Some(reqs[i])
  {
    forall i | 0 <= i < |reqs| ensures FrameToRequest(RequestFrames(reqs)[i]) == Some(reqs[i]) {
      RequestRoundTrip(reqs[i], []);
    }
  }

  lemma ResponseFramesParse(rsps: seq<IMResponse>)
    ensures forall i :: 0 <= i < |rsps| ==> FrameToResponse(ResponseFrames(rsps)[i]) == Some(rsps[i])
  {
    forall i | 0 <= i < |rsps| ensures FrameToResponse(ResponseFrames(rsps)[i]) == Some(rsps[i]) {
      ResponseRoundTrip(rsps[i], []);
    }
  }

  lemma RequestStream(reqs: seq<IMRequest>, slices: seq<seq<byte>>)
    requires Flatten(slices) == EncodeAll(RequestFrames(reqs))
    ensures var fed := ReceiveAll(Fed([], []), slices, REQUEST_FIELDS);
      && fed.rest == []
      && |fed.frames| == |reqs|
      && forall i :: 0 <= i < |reqs| ==> FrameToRequest(fed.frames[i]) == Some(reqs[i])
  {
    hide Feed, Receive, ReceiveAll, EncodeAll, Flatten;
    StreamRoundTrip(RequestFrames(reqs), slices, REQUEST_FIELDS);
    RequestFramesParse(reqs);
  }

  lemma ResponseStream(rsps: seq<IMResponse>, slices: seq<seq<byte>>)
    requires Flatten(slices) == EncodeAll(ResponseFrames(rsps))
    ensures var fed := ReceiveAll(Fed([], []), slices, RESPONSE_FIELDS);
      && fed.rest == []
      && |fed.frames| == |rsps|
      && forall i :: 0 <= i < |rsps| ==> FrameToResponse(fed.frames[i]) == Some(rsps[i])
  {
    hide Feed, Receive, ReceiveAll, EncodeAll, Flatten;
    StreamRoundTrip(ResponseFrames(rsps), slices, RESPONSE_FIELDS);
    ResponseFramesParse(rsps);
  }
}
