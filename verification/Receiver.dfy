/** The client library's end of the connection: ipc_recv_response, which collects one
    response from a socket that delivers it in arbitrary pieces. */
module Receiver {
  import opened Helpers
  import opened Wire
  import opened Subscriptions
  import opened OutputSide
  import opened InputSide

  /** How a call of ipc_recv_response ends. Stuck is the payload loop that gets no
      more bytes: it does not leave on an empty read. NoMemory is the null pointer that it
      returns if one of its two allocations fails. */
  datatype Response = Received(frame: Frame) | Aborted | Stuck | NoMemory

  /** The response at the front of a stream. The receiver does not look at the magic
      string. */
  function FirstResponse(s: Bytes): Response {
    if |s| < HEADER_SIZE then Aborted
    else if |s| < HEADER_SIZE + LengthField(s) then Stuck
    else Received(Frame(KindField(s), s[HEADER_SIZE..HEADER_SIZE + LengthField(s)]))
  }

  function AfterResponse(s: Bytes): (rest: Bytes)
    requires FirstResponse(s).Received?
    ensures |rest| < |s|
  {
    s[HEADER_SIZE + LengthField(s)..]
  }

  /** All responses of a stream, one call after another. */
  function Responses(s: Bytes): seq<Frame>
    decreases |s|
  {
    match FirstResponse(s)
    case Received(f) => [f] + Responses(AfterResponse(s))
    case _ => []
  }

  /** The peer's socket: `unread` is all that will still arrive. */
  class Socket {
    var unread: Bytes

    constructor (stream: Bytes)
      ensures unread == stream
    {
      unread := stream;
    }

    /** recv: any non-empty piece of at most `max` bytes, or nothing at the end. */
    method Recv(max: nat) returns (piece: Bytes)
      requires max > 0
      modifies this
      ensures old(unread) == piece + unread && |piece| <= max
      ensures piece == [] <==> old(unread) == []
    {
      if unread == [] {
        return [];
      }
      var n: nat :| 0 < n <= max && n <= |unread| by { assert 0 < 1 <= max && 1 <= |unread|; }
      piece, unread := unread[..n], unread[n..];
    }
  }

  /** The receive loop of both the header and the payload: it adds up pieces until
      `size` bytes are there. An empty piece before that means that no more will come. */
  method RecvExactly(socket: Socket, size: nat) returns (complete: bool, data: array<Byte>)
    modifies socket
    ensures complete == (|old(socket.unread)| >= size) && fresh(data) && data.Length == size
    ensures complete ==> data[..] + socket.unread == old(socket.unread)
  {
    data := new Byte[size];
    var total := 0;
    while total < size
      invariant 0 <= total <= size
      invariant data[..total] + socket.unread == old(socket.unread)
    {
      var received := socket.Recv(size - total);
      if received == [] {
        return false, data;
      }
      ghost var before := data[..total];
      forall k | 0 <= k < |received| { data[total + k] := received[k]; }
      assert data[..total + |received|] == before + received;
      Concatenation(before, received, socket.unread);
      total := total + |received|;
    }
    assert data[..] == data[..total];
    return true, data;
  }

  lemma HeaderOfStream(header: Bytes, rest: Bytes)
    requires |header| == HEADER_SIZE
    ensures LengthField(header + rest) == LengthField(header) && KindField(header + rest) == KindField(header)
    ensures (header + rest)[HEADER_SIZE..] == rest
  {
    assert (header + rest)[6..10] == header[6..10] && (header + rest)[10..14] == header[10..14];
  }

  /** ipc_recv_response; granted says whether its allocations succeed. If not, the header
      is gone from the socket. */
  method RecvResponse(socket: Socket, granted: bool) returns (r: Response)
    modifies socket
    ensures if granted || |old(socket.unread)| < HEADER_SIZE then
              && r == FirstResponse(old(socket.unread))
              && (r.Received? ==> socket.unread == AfterResponse(old(socket.unread)))
            else r == NoMemory && socket.unread == old(socket.unread)[HEADER_SIZE..]
  {
    var complete, data := RecvExactly(socket, HEADER_SIZE);
    if !complete {
      return Aborted;
    }
    ghost var body := socket.unread;
    HeaderOfStream(data[..], body);
    if !granted {
      return NoMemory;
    }
    var size, kind := LengthField(data[..]), KindField(data[..]);

    var payload;
    complete, payload := RecvExactly(socket, size);
    if !complete {
      return Stuck;
    }
    assert body[..size] == payload[..] && body[size..] == socket.unread;
    return Received(Frame(kind, payload[..]));
  }

  // ---------- End to end ----------

  lemma ResponseIsFrame(f: Frame, rest: Bytes)
    ensures FirstResponse(Encode(f) + rest) == Received(f)
    ensures AfterResponse(Encode(f) + rest) == rest
  {
    EncodingStartsWithFrame(f, rest);
  }

  lemma NoResponseInPart(f: Frame, part: Bytes)
    requires part <= Encode(f) && part != Encode(f)
    ensures !FirstResponse(part).Received?
  {
    if |part| >= HEADER_SIZE {
      HeaderFields(|f.payload|, f.kind, f.payload);
      assert part[6..10] == Encode(f)[6..10];
    }
  }

  lemma ResponsesCons(f: Frame, rest: Bytes)
    ensures Responses(Encode(f) + rest) == [f] + Responses(rest)
  {
    ResponseIsFrame(f, rest);
  }

  lemma DropCommonPrefix<T>(a: seq<T>, b: seq<T>, c: seq<T>)
    requires a + b <= a + c
    ensures b <= c
  {
    assert b == (a + b)[|a|..] && c == (a + c)[|a|..];
  }

  /** However much of an encoding has arrived, the receiver decodes the frames that
      are complete in it, in order, and no other. */
  lemma {:induction false} ResponsesOfPart(fs: seq<Frame>, part: Bytes)
    requires part <= EncodeAll(fs)
    ensures Responses(part) <= fs
    ensures Responses(part) == fs ==> part == EncodeAll(fs)
    ensures |EncodeAll(Responses(part))| <= |part|
  {
    if fs != [] {
      var e := Encode(fs[0]);
      if e <= part {
        var tail := part[|e|..];
        assert part == e + tail;
        DropCommonPrefix(e, tail, EncodeAll(fs[1..]));
        ResponsesOfPart(fs[1..], tail);
        ResponsesCons(fs[0], tail);
        EncodeAllConcat([fs[0]], Responses(tail));
        assert EncodeAll([fs[0]]) == e;
        ConsConcat(fs, []);
      } else {
        NoResponseInPart(fs[0], part);
      }
    }
  }

  /** Nothing decoded is lost: a complete encoding gives back all its frames. */
  lemma {:induction false} ResponsesOfWhole(fs: seq<Frame>)
    ensures Responses(EncodeAll(fs)) == fs
  {
    if fs != [] {
      ResponsesOfWhole(fs[1..]);
      ResponsesCons(fs[0], EncodeAll(fs[1..]));
    }
  }

  /** The receiver waits only for what has not arrived: once the frames up to and
      including the next one are there, that one is decoded too. */
  lemma {:induction false} ResponsesAreEager(fs: seq<Frame>, rest: Bytes)
    ensures fs <= Responses(EncodeAll(fs) + rest)
  {
    if fs == [] {
      assert EncodeAll(fs) + rest == rest;
    } else {
      Concatenation(Encode(fs[0]), EncodeAll(fs[1..]), rest);
      ResponsesAreEager(fs[1..], rest);
      ResponsesCons(fs[0], EncodeAll(fs[1..]) + rest);
    }
  }

  /** End to end: after any run, what the peer decodes from the written bytes is a
      prefix of the accepted frames, in order, and all of them if and only if the
      queue is empty. */
  lemma PeerReceivesWhatWasAccepted(o: Outbound)
    requires OutputInv(o)
    ensures Responses(o.wire) <= o.accepted
    ensures Responses(o.wire) == o.accepted <==> o.queue == []
  {
    ResponsesOfPart(o.accepted, o.wire);
    ResponsesOfWhole(o.accepted);
    if o.queue == [] {
      assert o.wire + o.queue == o.wire;
    }
  }

  lemma DroppedPeerReceivesAPrefix(o: Outbound)
    requires CutShort(o)
    ensures Responses(o.wire) <= o.accepted
  {
    ResponsesOfPart(o.accepted, o.wire);
  }

  /** The other way: requests written one after another, each as a header and its
      payload, become exactly those commands once the server is idle. */
  lemma ServerReceivesWhatWasRequested(requests: seq<Frame>, i: Inbound)
    requires InputInv(i) && Idle(i) && i.arrived == EncodeAll(requests)
    ensures i.dispatched == requests && Unparsed(i) == []
  {
    IdleHasDispatchedAll(i);
    FramesOfEncoding(requests, []);
    assert EncodeAll(requests) + [] == EncodeAll(requests);
    assert Frames([]) == [];
  }
}
