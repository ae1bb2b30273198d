/** What one client sends to the server: the byte stream that client_handle_readable
    cuts into frames across event-loop callbacks. */
module InputSide {
  import opened Helpers
  import opened Wire
  import opened Subscriptions
  import opened OutputSide

  /** The input fields of a client and of its socket, and the history of the run:
      `arrived` is everything the peer sent, `dispatched` the commands handed over. */
  datatype Inbound = Inbound(
    inbox: Bytes,          // received by the kernel, not yet read
    pendingLength: U32,    // 0 means that no header is held
    pendingType: U32,
    arrived: Bytes,
    dispatched: seq<Frame>)

  /** What a readable callback leaves, with the command it dispatched. */
  datatype ReadResult = ReadResult(outcome: Outcome<Inbound>, command: Option<Frame>)

  /** Where a system call of the readable callback fails. */
  datatype Fault = NoFault | OnPoll | OnHeader | OnPayload

  const FRESH_INBOUND := Inbound([], 0, 0, [], [])

  function Arrive(i: Inbound, bytes: Bytes): Inbound {
    i.(inbox := i.inbox + bytes, arrived := i.arrived + bytes)
  }

  /** Hands the next length bytes of the inbox to the command handler. */
  function Dispatch(i: Inbound, length: U32, kind: U32, fault: Fault): ReadResult
    requires length <= |i.inbox|
  {
    var idle := i.(pendingLength := 0, pendingType := kind);
    if length > 0 && fault == OnPayload then ReadResult(Dropped(idle), None)
    else
      var command := Frame(kind, i.inbox[..length]);
      ReadResult(Kept(idle.(inbox := i.inbox[length..], dispatched := i.dispatched + [command])), Some(command))
  }

  /** client_handle_readable when the kernel reports `available` bytes. */
  function Read(i: Inbound, available: nat, fault: Fault): ReadResult
    requires available <= |i.inbox|
  {
    if fault == OnPoll then ReadResult(Dropped(i), None)
    else if i.pendingLength > 0 then
      if available >= i.pendingLength then Dispatch(i, i.pendingLength, i.pendingType, fault)
      else ReadResult(Kept(i), None)
    else if available < HEADER_SIZE then ReadResult(Kept(i), None)
    else if fault == OnHeader then ReadResult(Dropped(i), None)
    else
      var headerRead := i.(inbox := i.inbox[HEADER_SIZE..]);
      if !HasMagic(i.inbox) then ReadResult(Dropped(headerRead), None)
      else
        var length, kind := LengthField(i.inbox), KindField(i.inbox);
        if available - HEADER_SIZE >= length then Dispatch(headerRead, length, kind, fault)
        else ReadResult(Kept(headerRead.(pendingLength := length, pendingType := kind)), None)
  }

  /** The header bytes that were read but whose payload was not. */
  function Held(i: Inbound): Bytes {
    if i.pendingLength > 0 then Header(i.pendingLength, i.pendingType) else []
  }

  /** The part of the peer's stream that has not become a command yet. */
  function Unparsed(i: Inbound): Bytes {
    Held(i) + i.inbox
  }

  /** The stream is the encoding of the dispatched commands, at most one held header,
      and the unread bytes. */
  ghost predicate InputInv(i: Inbound) {
    i.arrived == EncodeAll(i.dispatched) + Unparsed(i)
  }

  ghost predicate GoodInput(r: Outcome<Inbound>) {
    match r
    case Kept(i) => InputInv(i)
    case Dropped(i) => EncodeAll(i.dispatched) <= i.arrived
  }

  lemma ArriveKeepsInput(i: Inbound, bytes: Bytes)
    requires InputInv(i)
    ensures InputInv(Arrive(i, bytes))
  {
    Concatenation(EncodeAll(i.dispatched), Unparsed(i), bytes);
    Concatenation(Held(i), i.inbox, bytes);
  }

  lemma DispatchConsumes(i: Inbound, length: U32, kind: U32, fault: Fault)
    requires length <= |i.inbox|
    ensures var r := Dispatch(i, length, kind, fault);
            r.command.Some? ==>
              && r.outcome.Kept? && r.command == Some(Frame(kind, i.inbox[..length]))
              && Header(length, kind) + i.inbox == Encode(r.command.value) + Unparsed(r.outcome.state)
  {
    assert i.inbox == i.inbox[..length] + i.inbox[length..];
    Concatenation(Header(length, kind), i.inbox[..length], i.inbox[length..]);
  }

  lemma InboxHeader(s: Bytes)
    requires |s| >= HEADER_SIZE && HasMagic(s)
    ensures s == Header(LengthField(s), KindField(s)) + s[HEADER_SIZE..]
  {
    HeaderIsItsFields(s);
    assert s == s[..HEADER_SIZE] + s[HEADER_SIZE..];
  }

  /** Whatever count the kernel reports, a readable callback moves at most one frame
      from the front of the unparsed stream to the commands, and loses no byte. */
  lemma ReadConsumes(i: Inbound, available: nat, fault: Fault)
    requires available <= |i.inbox|
    ensures var r := Read(i, available, fault);
            match r.command
            case None => r.outcome.Kept? ==> Unparsed(r.outcome.state) == Unparsed(i)
            case Some(f) =>
              && r.outcome.Kept?
              && r.outcome.state.dispatched == i.dispatched + [f]
              && Unparsed(i) == Encode(f) + Unparsed(r.outcome.state)
  {
    if i.pendingLength > 0 {
      if available >= i.pendingLength {
        DispatchConsumes(i, i.pendingLength, i.pendingType, fault);
      }
    } else if available >= HEADER_SIZE && HasMagic(i.inbox) {
      InboxHeader(i.inbox);
      var length, kind := LengthField(i.inbox), KindField(i.inbox);
      if available - HEADER_SIZE >= length {
        DispatchConsumes(i.(inbox := i.inbox[HEADER_SIZE..]), length, kind, fault);
      }
    }
  }

  lemma ReadHistory(i: Inbound, available: nat, fault: Fault)
    requires available <= |i.inbox|
    ensures var r := Read(i, available, fault);
            r.outcome.state.arrived == i.arrived && (r.command.None? ==> r.outcome.state.dispatched == i.dispatched)
  {
  }

  lemma ReadKeepsInput(i: Inbound, available: nat, fault: Fault)
    requires InputInv(i) && available <= |i.inbox|
    ensures GoodInput(Read(i, available, fault).outcome)
  {
    var r := Read(i, available, fault);
    ReadConsumes(i, available, fault);
    ReadHistory(i, available, fault);
    if r.command.Some? {
      EncodeAllAppend(i.dispatched, r.command.value);
      Concatenation(EncodeAll(i.dispatched), Encode(r.command.value), Unparsed(r.outcome.state));
    }
  }

  /** The stream as far as a callback sees it. */
  function Visible(i: Inbound, available: nat): Bytes
    requires available <= |i.inbox|
  {
    Held(i) + i.inbox[..available]
  }

  predicate WrongHeader(s: Bytes) {
    |s| >= HEADER_SIZE && !HasMagic(s)
  }

  /** What makes a readable callback drop the client: the size cannot be asked for; the
      header is there but cannot be read, or is wrong; or a whole frame is there and its
      payload, which is not empty, cannot be read. */
  predicate ReadFails(i: Inbound, available: nat, fault: Fault)
    requires available <= |i.inbox|
  {
    var s := Visible(i, available);
    || fault == OnPoll
    || WrongHeader(s)
    || (fault == OnHeader && i.pendingLength == 0 && |s| >= HEADER_SIZE)
    || (fault == OnPayload && StartsWithFrame(s) && FirstFrame(s).payload != [])
  }

  lemma VisibleHeader(i: Inbound, available: nat)
    requires available <= |i.inbox|
    ensures var s := Visible(i, available);
            if i.pendingLength > 0 then
              && |s| == HEADER_SIZE + available && HasMagic(s)
              && LengthField(s) == i.pendingLength && KindField(s) == i.pendingType
              && s[HEADER_SIZE..] == i.inbox[..available]
            else s == i.inbox[..available]
  {
    if i.pendingLength > 0 {
      HeaderFields(i.pendingLength, i.pendingType, i.inbox[..available]);
    }
  }

  lemma HeaderOfPart(s: Bytes, n: nat)
    requires HEADER_SIZE <= n <= |s|
    ensures HasMagic(s[..n]) == HasMagic(s)
    ensures LengthField(s[..n]) == LengthField(s) && KindField(s[..n]) == KindField(s)
  {
    assert s[..n][..6] == s[..6] && s[..n][6..10] == s[6..10] && s[..n][10..14] == s[10..14];
  }

  /** A callback drops the client exactly if it fails, and dispatches exactly if it does
      not fail and a whole frame is in what it sees. */
  predicate ReadsAsSeen(i: Inbound, available: nat, fault: Fault)
    requires available <= |i.inbox|
  {
    var r, s := Read(i, available, fault), Visible(i, available);
    && (r.outcome.Dropped? <==> ReadFails(i, available, fault))
    && (r.command == if StartsWithFrame(s) && !ReadFails(i, available, fault) then Some(FirstFrame(s)) else None)
  }

  lemma ReadBehindHeader(i: Inbound, available: nat, fault: Fault)
    requires available <= |i.inbox| && i.pendingLength > 0
    ensures ReadsAsSeen(i, available, fault)
  {
    var s := Visible(i, available);
    VisibleHeader(i, available);
    if available >= i.pendingLength {
      assert s[HEADER_SIZE..HEADER_SIZE + i.pendingLength] == s[HEADER_SIZE..][..i.pendingLength];
      assert i.inbox[..available][..i.pendingLength] == i.inbox[..i.pendingLength];
    }
  }

  lemma FrameOfPart(s: Bytes, n: nat)
    requires n <= |s|
    ensures StartsWithFrame(s[..n]) <==> n >= HEADER_SIZE && HasMagic(s) && n - HEADER_SIZE >= LengthField(s)
    ensures StartsWithFrame(s[..n]) ==> FirstFrame(s[..n]) == Frame(KindField(s), s[HEADER_SIZE..][..LengthField(s)])
    ensures WrongHeader(s[..n]) <==> n >= HEADER_SIZE && !HasMagic(s)
  {
    if n >= HEADER_SIZE {
      HeaderOfPart(s, n);
      var length := LengthField(s);
      if n - HEADER_SIZE >= length {
        assert s[..n][HEADER_SIZE..HEADER_SIZE + length] == s[HEADER_SIZE..][..length];
      }
    }
  }

  lemma ReadWithHeader(i: Inbound, available: nat, fault: Fault)
    requires available <= |i.inbox| && i.pendingLength == 0
    ensures ReadsAsSeen(i, available, fault)
  {
    assert Visible(i, available) == i.inbox[..available];
    FrameOfPart(i.inbox, available);
  }

  /** For every count that the kernel reports: what is dispatched and what disconnects, in
      terms of the bytes that are visible. */
  lemma ReadDropsIff(i: Inbound, available: nat, fault: Fault)
    requires available <= |i.inbox|
    ensures ReadsAsSeen(i, available, fault)
  {
    if i.pendingLength > 0 {
      ReadBehindHeader(i, available, fault);
    } else {
      ReadWithHeader(i, available, fault);
    }
  }

  // ---------- What reaches the command handler ----------

  /** However the stream was cut into chunks, the commands dispatched so far are the
      first ones of its frame-by-frame parse, and the rest are still to come. */
  lemma DispatchedThenRest(i: Inbound)
    requires InputInv(i)
    ensures Frames(i.arrived) == i.dispatched + Frames(Unparsed(i))
  {
    FramesOfEncoding(i.dispatched, Unparsed(i));
  }

  lemma DispatchedIsPrefix(r: Outcome<Inbound>)
    requires GoodInput(r)
    ensures r.state.dispatched <= Frames(r.state.arrived)
  {
    var i := r.state;
    var rest := i.arrived[|EncodeAll(i.dispatched)|..];
    assert EncodeAll(i.dispatched) <= i.arrived;
    assert i.arrived == EncodeAll(i.dispatched) + rest;
    FramesOfEncoding(i.dispatched, rest);
  }

  lemma HeldHeaderFields(i: Inbound)
    requires i.pendingLength > 0
    ensures HasMagic(Unparsed(i)) && LengthField(Unparsed(i)) == i.pendingLength
    ensures KindField(Unparsed(i)) == i.pendingType
    ensures Unparsed(i)[HEADER_SIZE..] == i.inbox
  {
    HeaderFields(i.pendingLength, i.pendingType, i.inbox);
  }

  /** A callback that sees everything the kernel holds makes exactly one step of the
      parse: it dispatches the next frame if it is complete, disconnects if the next
      header is wrong, and otherwise only waits. */
  lemma ReadIsAParseStep(i: Inbound)
    ensures var s, r := Unparsed(i), Read(i, |i.inbox|, NoFault);
            if StartsWithFrame(s) then
              && r.command == Some(FirstFrame(s)) && r.outcome.Kept?
              && Unparsed(r.outcome.state) == AfterFirstFrame(s)
            else
              && r.command == None
              && (r.outcome.Dropped? <==> |s| >= HEADER_SIZE && !HasMagic(s))
              && (r.outcome.Kept? ==> Unparsed(r.outcome.state) == s)
  {
    if i.pendingLength > 0 {
      HeldHeaderFields(i);
    } else {
      assert Unparsed(i) == i.inbox;
    }
    var r := Read(i, |i.inbox|, NoFault);
    ReadConsumes(i, |i.inbox|, NoFault);
    if r.command.Some? {
      EncodingStartsWithFrame(r.command.value, Unparsed(r.outcome.state));
    }
  }

  /** A client whose next callback would do nothing. */
  predicate Idle(i: Inbound) {
    Read(i, |i.inbox|, NoFault) == ReadResult(Kept(i), None)
  }

  /** An idle client has been served every complete frame of its stream. */
  lemma IdleHasDispatchedAll(i: Inbound)
    requires InputInv(i) && Idle(i)
    ensures i.dispatched == Frames(i.arrived)
  {
    ReadIsAParseStep(i);
    DispatchedThenRest(i);
  }

  /** Two idle clients that were sent the same bytes got the same commands, whatever
      the two chunkings and the two interleavings of callbacks. */
  lemma ChunkIndependence(i: Inbound, j: Inbound)
    requires InputInv(i) && Idle(i) && InputInv(j) && Idle(j)
    requires i.arrived == j.arrived
    ensures i.dispatched == j.dispatched && Unparsed(i) == Unparsed(j)
  {
    IdleHasDispatchedAll(i);
    IdleHasDispatchedAll(j);
    assert Unparsed(i) == i.arrived[|EncodeAll(i.dispatched)|..];
    assert Unparsed(j) == j.arrived[|EncodeAll(j.dispatched)|..];
  }

  /** The state after n more callbacks in a row. */
  function Drain(i: Inbound, n: nat): Outcome<Inbound>
    decreases n
  {
    if n == 0 then Kept(i)
    else
      var o := Read(i, |i.inbox|, NoFault).outcome;
      if o.Dropped? then o else Drain(o.state, n - 1)
  }

  /** The part of a stream that remains after its complete frames. */
  function Remainder(s: Bytes): Bytes
    decreases |s|
  {
    if StartsWithFrame(s) then Remainder(AfterFirstFrame(s)) else s
  }

  /** The step of the parse, in terms of the two functions of the stream. */
  lemma FullRead(i: Inbound)
    ensures var s, r := Unparsed(i), Read(i, |i.inbox|, NoFault).outcome;
            if Frames(s) == [] then
              && r.state.dispatched == i.dispatched
              && (r.Dropped? <==> WrongHeader(Remainder(s)))
              && (r.Kept? ==> Unparsed(r.state) == s)
            else
              && r.Kept?
              && r.state.dispatched == i.dispatched + [Frames(s)[0]]
              && Frames(Unparsed(r.state)) == Frames(s)[1..]
              && Remainder(Unparsed(r.state)) == Remainder(s)
  {
    ReadIsAParseStep(i);
    ReadConsumes(i, |i.inbox|, NoFault);
    ReadHistory(i, |i.inbox|, NoFault);
  }

  /** What is left to do, as one value. */
  predicate Drained(i: Inbound, o: Outcome<Inbound>) {
    && o.state.dispatched == i.dispatched + Frames(Unparsed(i))
    && (o.Dropped? <==> WrongHeader(Remainder(Unparsed(i))))
  }

  lemma DrainedStep(i: Inbound, j: Inbound, o: Outcome<Inbound>)
    requires Frames(Unparsed(i)) != []
    requires j.dispatched == i.dispatched + [Frames(Unparsed(i))[0]]
    requires Frames(Unparsed(j)) == Frames(Unparsed(i))[1..] && Remainder(Unparsed(j)) == Remainder(Unparsed(i))
    requires Drained(j, o)
    ensures Drained(i, o)
  {
    MoveHead(i.dispatched, Frames(Unparsed(i)));
  }

  /** The first of some callbacks in a row: it takes the next frame, or nothing is to be
      taken and it is the last one or changes nothing. */
  lemma DrainStep(i: Inbound, n: nat) returns (j: Inbound)
    requires n > 0
    ensures if Frames(Unparsed(i)) != [] then
              && Drain(i, n) == Drain(j, n - 1)
              && j.dispatched == i.dispatched + [Frames(Unparsed(i))[0]]
              && Frames(Unparsed(j)) == Frames(Unparsed(i))[1..] && Remainder(Unparsed(j)) == Remainder(Unparsed(i))
            else
              || (Drained(i, Drain(i, n)) && (n == 1 || Drain(i, n).Dropped?))
              || (n > 1 && Drain(i, n) == Drain(j, n - 1)
                  && j.dispatched == i.dispatched && Unparsed(j) == Unparsed(i))
  {
    FullRead(i);
    j := Read(i, |i.inbox|, NoFault).outcome.state;
  }

  /** Callbacks always get there: one more callback than there are complete frames
      left dispatches all of them, in order, and then the client is dropped if and
      only if the bytes after them start with a wrong header. */
  lemma {:induction false} DrainDispatchesAll(i: Inbound, n: nat)
    requires n > |Frames(Unparsed(i))|
    ensures Drained(i, Drain(i, n))
    decreases n
  {
    var j := DrainStep(i, n);
    if Frames(Unparsed(i)) != [] {
      DrainDispatchesAll(j, n - 1);
      DrainedStep(i, j, Drain(j, n - 1));
    } else if n > 1 && !Drained(i, Drain(i, n)) {
      DrainDispatchesAll(j, n - 1);
    }
  }
}
