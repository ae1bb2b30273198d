/** The server's objects: IpcClient and the list of them. Each method does what the
    callback does, in place, and is proved against the step functions of Clients. */
module Server {
  import opened Helpers
  import opened Wire
  import opened Subscriptions
  import opened OutputSide
  import opened InputSide
  import opened Clients
  import opened Protocol

  class IpcClient {
    const fd: nat
    var inbox: Bytes                 // the kernel's receive queue of the socket
    var pendingLength: U32
    var pendingType: U32
    var writeBuffer: array<Byte>
    var writeBufferSize: nat
    var writeBufferLen: nat
    var writableSource: bool
    var subscribedEvents: Mask
    ghost var state: Conn            // the connection that this object stands for

    ghost predicate Sane()
      reads this, writeBuffer
    {
      && writeBufferLen <= writeBuffer.Length && writeBufferSize > 0
      && state.fd == fd && state.subscribed == subscribedEvents
      && state.inbound == Inbound(inbox, pendingLength, pendingType, state.inbound.arrived, state.inbound.dispatched)
      && state.outbound == Outbound(writeBufferSize, writeBuffer[..writeBufferLen], writableSource,
                                    state.outbound.wire, state.outbound.accepted)
    }

    /** Sane, and not on the way out after a failed send_reply. */
    ghost predicate Ready()
      reads this, writeBuffer
    {
      Sane() && writeBuffer.Length == writeBufferSize
    }

    /** handle_connection, once the socket is accepted. */
    constructor (fd: nat)
      ensures Ready() && fresh(writeBuffer) && state == Fresh(fd) && this.fd == fd
    {
      this.fd := fd;
      inbox, pendingLength, pendingType := [], 0, 0;
      subscribedEvents := NO_EVENTS;
      writableSource := false;
      writeBufferSize, writeBufferLen := INITIAL_CAPACITY, 0;
      writeBuffer := new Byte[INITIAL_CAPACITY];
      state := Fresh(fd);
      new;
      assert writeBuffer[..0] == [];
    }

    /** Bytes reach the socket. */
    method Receive(bytes: Bytes)
      requires Ready()
      modifies this
      ensures Ready() && writeBuffer == old(writeBuffer)
      ensures state == old(state).(inbound := Arrive(old(state.inbound), bytes))
    {
      inbox := inbox + bytes;
      state := state.(inbound := Arrive(state.inbound, bytes));
    }

    /** The doubling loop of send_reply. */
    method Reserve(length: U32)
      requires Ready() && OutputInv(state.outbound)
      modifies this`writeBufferSize
      ensures writeBufferSize == Grow(old(writeBufferSize), writeBufferLen + HEADER_SIZE + length)
    {
      ghost var need := writeBufferLen + HEADER_SIZE + length;
      GrowFits64Bits(state.outbound, length);
      while writeBufferLen + HEADER_SIZE + length >= writeBufferSize
        invariant writeBufferSize > 0 && Grow(writeBufferSize, need) == Grow(old(writeBufferSize), need)
        invariant writeBufferSize < 0x1_0000_0000_0000_0000
        decreases need + 1 - writeBufferSize
      {
        writeBufferSize := writeBufferSize * 2;
      }
    }

    /** realloc: a buffer of the new size with the queued bytes in it. */
    method Reallocate()
      requires writeBufferLen <= writeBuffer.Length && writeBufferLen <= writeBufferSize
      modifies this`writeBuffer
      ensures fresh(writeBuffer) && writeBuffer.Length == writeBufferSize
      ensures writeBuffer[..writeBufferLen] == old(writeBuffer[..writeBufferLen])
    {
      var newBuffer := new Byte[writeBufferSize];
      forall k | 0 <= k < writeBufferLen { newBuffer[k] := writeBuffer[k]; }
      writeBuffer := newBuffer;
    }

    /** memcpy of `count` bytes behind the queue. */
    method Append(bytes: Bytes, count: nat)
      requires count <= |bytes| && writeBufferLen + count <= writeBuffer.Length
      modifies this`writeBufferLen, writeBuffer
      ensures writeBufferLen == old(writeBufferLen) + count
      ensures writeBuffer[..writeBufferLen] == old(writeBuffer[..writeBufferLen]) + bytes[..count]
    {
      forall k | 0 <= k < count { writeBuffer[writeBufferLen + k] := bytes[k]; }
      writeBufferLen := writeBufferLen + count;
    }

    /** send_reply without the disconnect: false means that the caller has to drop
        the client. */
    method Enqueue(kind: U32, payload: Bytes, length: U32, granted: bool) returns (ok: bool)
      requires Ready() && OutputInv(state.outbound) && length <= |payload|
      modifies this
      ensures Sane() && (ok ==> Ready()) && (writeBuffer == old(writeBuffer) || fresh(writeBuffer))
      ensures var r := Send(old(state.outbound), kind, payload, length, granted);
              ok == r.Kept? && state == old(state).(outbound := r.state)
    {
      ghost var r := Send(state.outbound, kind, payload, length, granted);
      var data := Header(length, kind);
      Reserve(length);
      if writeBufferSize > CAPACITY_LIMIT {
        state := state.(outbound := r.state);
        return false;
      }
      if !granted {
        state := state.(outbound := r.state);
        return false;
      }
      Reallocate();
      Append(data, HEADER_SIZE);
      Append(payload, length);
      assert data[..HEADER_SIZE] == data;
      Concatenation(state.outbound.queue, data, payload[..length]);
      if !writableSource {
        writableSource := true;
      }
      state := state.(outbound := r.state);
      return true;
    }

    /** client_handle_writable without the disconnect. */
    method Flush(result: WriteResult) returns (ok: bool)
      requires Ready() && (result.Wrote? ==> result.count <= writeBufferLen)
      modifies this, writeBuffer
      ensures Ready() && writeBuffer == old(writeBuffer)
      ensures var r := Write(old(state.outbound), result);
              ok == r.Kept? && state == old(state).(outbound := r.state)
    {
      if result.Broken? {
        return false;
      }
      if writeBufferLen <= 0 {
        return true;
      }
      match result {
        case WouldBlock => return true;
        case Failed => return false;
        case Broken => return false;
        case Wrote(written) =>
          ghost var queue := writeBuffer[..writeBufferLen];
          forall k | 0 <= k < writeBufferLen - written { writeBuffer[k] := writeBuffer[written + k]; }
          assert writeBuffer[..writeBufferLen - written] == queue[written..];
          writeBufferLen := writeBufferLen - written;
          if writeBufferLen == 0 && writableSource {
            writableSource := false;
          }
          state := state.(outbound := Write(state.outbound, result).state);
          return true;
      }
    }

    /** recv of `count` bytes that are known to be there. */
    method Recv(count: nat) returns (bytes: Bytes)
      requires count <= |inbox|
      modifies this`inbox
      ensures bytes == old(inbox)[..count] && inbox == old(inbox)[count..]
    {
      bytes, inbox := inbox[..count], inbox[count..];
    }

    /** client_handle_readable up to the command handler, without the disconnect. */
    method Collect(available: nat, fault: Fault) returns (ok: bool, command: Option<Frame>)
      requires Ready() && available <= |inbox|
      modifies this
      ensures Ready() && writeBuffer == old(writeBuffer)
      ensures var r := Read(old(state.inbound), available, fault);
              ok == r.outcome.Kept? && command == r.command && state == old(state).(inbound := r.outcome.state)
    {
      if fault == OnPoll {
        return false, None;
      }
      if pendingLength > 0 {
        if available >= pendingLength {
          ok, command := HandOver(fault);
          return;
        }
        return true, None;
      }
      if available < HEADER_SIZE {
        return true, None;
      }
      if fault == OnHeader {
        return false, None;
      }
      ghost var stream := inbox;
      HeaderOfInbox(stream);
      var buf := Recv(HEADER_SIZE);
      state := state.(inbound := state.inbound.(inbox := inbox));
      if buf[..MAGIC_SIZE] != MAGIC {
        return false, None;
      }
      pendingLength, pendingType := LengthField(buf), KindField(buf);
      state := state.(inbound := state.inbound.(pendingLength := pendingLength, pendingType := pendingType));
      if available - HEADER_SIZE >= pendingLength {
        ok, command := HandOver(fault);
        return;
      }
      return true, None;
    }

    /** Resets the pending values and reads the payload. */
    method HandOver(fault: Fault) returns (ok: bool, command: Option<Frame>)
      requires Ready() && pendingLength <= |inbox|
      modifies this
      ensures Ready() && writeBuffer == old(writeBuffer)
      ensures var r := Dispatch(old(state.inbound), old(pendingLength), old(pendingType), fault);
              ok == r.outcome.Kept? && command == r.command && state == old(state).(inbound := r.outcome.state)
    {
      ghost var r := Dispatch(state.inbound, pendingLength, pendingType, fault);
      var length := pendingLength;
      pendingLength := 0;
      state := state.(inbound := r.outcome.state);
      var payload := [];
      if length > 0 {
        if fault == OnPayload {
          return false, None;
        }
        payload := Recv(length);
      }
      return true, Some(Frame(pendingType, payload));
    }

    /** One element of the array: whether it is known, and whether it names tick. */
    method SubscribeOne(item: Item, kindOf: Reader) returns (known: bool, tick: bool)
      modifies this`subscribedEvents
      ensures match item
              case Other => known && !tick && subscribedEvents == old(subscribedEvents)
              case Name(text) =>
                match kindOf(text)
                case None => !known && subscribedEvents == NO_EVENTS
                case Some(k) =>
                  known && tick == (k == Tick) && subscribedEvents == WithBit(old(subscribedEvents), k)
    {
      if item.Name? {
        match kindOf(item.text) {
          case None =>
            subscribedEvents := NO_EVENTS;
            return false, false;
          case Some(k) =>
            subscribedEvents := subscribedEvents | EventMask(k);
            return true, k == Tick;
        }
      }
      return true, false;
    }

    /** The loop of the SUBSCRIBE request over a non-empty array. */
    method SubscribeBy(items: seq<Item>, kindOf: Reader) returns (success: bool, hasTick: bool)
      requires Ready()
      modifies this`subscribedEvents, this`state
      ensures Ready() && state == old(state).(subscribed := SubscribedBy(old(subscribedEvents), items, kindOf))
      ensures success == AllKnown(items, kindOf)
      ensures success ==> hasTick == (Tick in Named(items, kindOf))
    {
      state := state.(subscribed := SubscribedBy(subscribedEvents, items, kindOf));
      ghost var start := subscribedEvents;
      hasTick := false;
      for i := 0 to |items|
        invariant SubscribedSoFar(start, items, i, kindOf, subscribedEvents, hasTick)
        modifies this`subscribedEvents
      {
        ghost var before := subscribedEvents;
        var known, tick := SubscribeOne(items[i], kindOf);
        SubscribeStep(start, items, i, kindOf, before, hasTick, subscribedEvents, known, tick);
        if !known {
          return false, hasTick;
        }
        hasTick := hasTick || tick;
      }
      SubscribeDone(start, items, kindOf, subscribedEvents, hasTick);
      return true, hasTick;
    }

    method Subscribe(items: seq<Item>) returns (success: bool, hasTick: bool)
      requires Ready()
      modifies this`subscribedEvents, this`state
      ensures Ready() && state == old(state).(subscribed := Subscribed(old(subscribedEvents), items))
      ensures success == AllKnown(items, SubscribeKind)
      ensures success ==> hasTick == (Tick in Named(items, SubscribeKind))
    {
      success, hasTick := SubscribeBy(items, SubscribeKind);
    }

    /** Clears the bit of one event if it is set. */
    method Release(k: EventKind)
      modifies this`subscribedEvents
      ensures subscribedEvents == old(subscribedEvents) & !EventMask(k)
    {
      ClearUnset(subscribedEvents, EventMask(k));
      if subscribedEvents & EventMask(k) != 0 {
        subscribedEvents := subscribedEvents & !EventMask(k);
      }
    }

    /** The loop of the UNSUBSCRIBE request over a non-empty array. */
    method UnsubscribeBy(items: seq<Item>, kindOf: Reader) returns (success: bool)
      requires Ready()
      modifies this`subscribedEvents, this`state
      ensures Ready() && state == old(state).(subscribed := ClearAll(old(subscribedEvents), Named(items, kindOf)))
      ensures success == AllKnown(items, kindOf)
    {
      state := state.(subscribed := ClearAll(subscribedEvents, Named(items, kindOf)));
      for i := 0 to |items|
        invariant AllKnown(items[..i], kindOf)
        invariant subscribedEvents == ClearAll(old(subscribedEvents), Named(items[..i], kindOf))
        modifies this`subscribedEvents
      {
        UnsubscribeNext(old(subscribedEvents), items, i, kindOf);
        if items[i].Name? {
          match kindOf(items[i].text) {
            case None =>
              return false;
            case Some(k) =>
              Release(k);
          }
        }
      }
      assert items[..|items|] == items;
      return true;
    }

    method Unsubscribe(items: seq<Item>) returns (success: bool)
      requires Ready()
      modifies this`subscribedEvents, this`state
      ensures Ready() && state == old(state).(subscribed := Unsubscribed(old(subscribedEvents), items))
      ensures success == AllKnown(items, EventToType)
    {
      success := UnsubscribeBy(items, EventToType);
    }
  }

  /** The server: the list of connected clients. */
  class IpcServer {
    var clients: seq<IpcClient>
    ghost var conns: seq<Conn>      // the connections that the clients stand for
    ghost var Repr: set<object>
    ghost var owner: map<object, nat> // the descriptor that each write buffer serves

    ghost predicate Valid()
      reads this, Repr
      ensures Valid() ==> this in Repr
    {
      && this in Repr && Linked() && DistinctFds(conns)
      && forall i :: 0 <= i < |clients| ==> clients[i].Ready() && clients[i].state == conns[i]
    }

    /** Every write buffer belongs to one client, so no two clients share one. */
    ghost predicate Linked()
      reads this, Repr
    {
      && |conns| == |clients| && owner.Keys <= Repr
      && forall i :: 0 <= i < |clients| ==>
           && clients[i] in Repr && clients[i].writeBuffer in Repr
           && clients[i].fd == conns[i].fd && clients[i].writeBuffer in owner
           && owner[clients[i].writeBuffer] == clients[i].fd
    }

    /** Everything is in order but for the client at index i, whose callback runs. */
    ghost predicate Around(i: nat)
      reads this, Repr
    {
      && this in Repr && Linked() && DistinctFds(conns) && i < |clients|
      && forall j :: 0 <= j < |clients| && j != i ==> clients[j].Ready() && clients[j].state == conns[j]
    }

    constructor ()
      ensures Valid() && fresh(Repr) && conns == [] && ServerInv(conns)
    {
      clients, conns, Repr, owner := [], [], {this}, map[];
    }

    /** handle_connection: the system gives a descriptor that no client has. */
    method Accept(fd: nat)
      requires Valid() && forall j :: 0 <= j < |conns| ==> conns[j].fd != fd
      modifies Repr
      ensures Valid() && fresh(Repr - old(Repr)) && conns == old(conns) + [Fresh(fd)]
    {
      var client := new IpcClient(fd);
      clients := clients + [client];
      conns := conns + [Fresh(fd)];
      Repr, owner := Repr + {client, client.writeBuffer}, owner[client.writeBuffer := fd];
    }

    /** client_disconnect: the erase loop over the list. */
    method Disconnect(client: IpcClient)
      modifies this`clients
      ensures clients == Without(old(clients), client)
    {
      var it := 0;
      while it < |clients|
        invariant it <= |clients| && client !in clients[..it]
        invariant Without(clients, client) == Without(old(clients), client)
        decreases |clients| - it
      {
        if clients[it] == client {
          EraseOne(clients, it);
          ghost var kept := clients[..it];
          clients := clients[..it] + clients[it + 1..];
          assert clients[..it] == kept;
        } else {
          it := it + 1;
        }
      }
      assert clients[..it] == clients;
      WithoutNone(clients, client);
    }

    /** The client at index i of the list changed and stays. */
    ghost method Keep(client: IpcClient, i: nat)
      requires Around(i) && clients[i] == client
      requires client.Ready()
      modifies this`conns
      ensures conns == old(conns)[i := client.state] && Valid()
    {
      conns := conns[i := client.state];
    }

    /** client_disconnect for the client at index i of the list. */
    method Drop(client: IpcClient, ghost i: nat)
      requires Around(i) && clients[i] == client
      modifies this`clients, this`conns
      ensures clients == old(clients)[..i] + old(clients)[i + 1..]
      ensures conns == old(conns)[..i] + old(conns)[i + 1..] && Valid()
    {
      ghost var all, list := clients, conns;
      DistinctClients();
      Disconnect(client);
      WithoutOne(all, i);
      conns := list[..i] + list[i + 1..];
      StillDistinct(list, i);
      forall j | 0 <= j < |clients|
        ensures clients[j] in Repr && clients[j].writeBuffer in Repr && clients[j].fd == conns[j].fd &&
                clients[j].writeBuffer in owner && owner[clients[j].writeBuffer] == clients[j].fd &&
                clients[j].Ready() && clients[j].state == conns[j]
      {
        var k := if j < i then j else j + 1;
        assert clients[j] == all[k] && conns[j] == list[k];
      }
    }

    lemma DistinctClients()
      requires Linked() && DistinctFds(conns)
      ensures forall j, k :: 0 <= j < k < |clients| ==> clients[j] != clients[k]
    {
      forall j, k | 0 <= j < k < |clients| ensures clients[j] != clients[k] {
        assert clients[j].fd == conns[j].fd && clients[k].fd == conns[k].fd;
      }
    }

    /** The part of send_reply that fills the buffer. */
    method Queue(client: IpcClient, ghost i: nat, kind: U32, payload: Bytes, length: U32, granted: bool)
      returns (ok: bool)
      requires Valid() && i < |clients| && clients[i] == client && OutputInv(conns[i].outbound) && length <= |payload|
      modifies client, this`Repr, this`owner
      ensures Around(i) && (ok ==> client.Ready())
      ensures Repr == old(Repr) + {client.writeBuffer}
      ensures client.writeBuffer == old(client.writeBuffer) || fresh(client.writeBuffer)
      ensures var r := Send(conns[i].outbound, kind, payload, length, granted);
              ok == r.Kept? && client.state == conns[i].(outbound := r.state)
    {
      ok := client.Enqueue(kind, payload, length, granted);
      Repr, owner := Repr + {client.writeBuffer}, owner[client.writeBuffer := client.fd];
    }

    /** The part of client_handle_writable that writes. */
    method WriteOut(client: IpcClient, ghost i: nat, result: WriteResult) returns (ok: bool)
      requires Valid() && i < |clients| && clients[i] == client
      requires result.Wrote? ==> result.count <= client.writeBufferLen
      modifies client, client.writeBuffer
      ensures Around(i) && client.Ready()
      ensures var r := Write(conns[i].outbound, result);
              ok == r.Kept? && client.state == conns[i].(outbound := r.state)
    {
      ok := client.Flush(result);
    }

    /** The part of client_handle_readable that reads. */
    method ReadIn(client: IpcClient, ghost i: nat, available: nat, fault: Fault)
      returns (ok: bool, command: Option<Frame>)
      requires Valid() && i < |clients| && clients[i] == client && available <= |client.inbox|
      modifies client
      ensures Around(i) && client.Ready()
      ensures var r := Read(conns[i].inbound, available, fault);
              ok == r.outcome.Kept? && command == r.command && client.state == conns[i].(inbound := r.outcome.state)
    {
      ok, command := client.Collect(available, fault);
    }

    /** Bytes arrive on a client's socket. */
    method Receive(client: IpcClient, ghost i: nat, bytes: Bytes)
      requires Valid() && i < |clients| && clients[i] == client && conns[i].outbound.capacity > 0
      modifies Repr
      ensures Valid() && fresh(Repr - old(Repr)) && clients == old(clients)
      ensures conns == Left(old(conns), i, Act(old(conns)[i], Arrives(bytes)))
    {
      client.Receive(bytes);
      Keep(client, i);
    }

    method HandleWritable(client: IpcClient, ghost i: nat, result: WriteResult)
      requires Valid() && i < |clients| && clients[i] == client && conns[i].outbound.capacity > 0
      requires result.Wrote? ==> result.count <= client.writeBufferLen
      modifies Repr
      ensures Valid() && fresh(Repr - old(Repr))
      ensures conns == Left(old(conns), i, Act(old(conns)[i], Writable(result)))
    {
      var ok := WriteOut(client, i, result);
      if ok {
        Keep(client, i);
      } else {
        Drop(client, i);
      }
    }

    method HandleReadable(client: IpcClient, ghost i: nat, available: nat, fault: Fault)
      returns (command: Option<Frame>)
      requires Valid() && i < |clients| && clients[i] == client && conns[i].outbound.capacity > 0
      requires available <= |client.inbox|
      modifies Repr
      ensures Valid() && fresh(Repr - old(Repr))
      ensures conns == Left(old(conns), i, Act(old(conns)[i], Readable(available, fault)))
      ensures command == Read(old(conns)[i].inbound, available, fault).command
      ensures command.Some? ==> clients == old(clients)
    {
      ReadConsumes(conns[i].inbound, available, fault);
      var ok;
      ok, command := ReadIn(client, i, available, fault);
      if ok {
        Keep(client, i);
      } else {
        Drop(client, i);
      }
    }

    /** send_reply. */
    method SendReply(client: IpcClient, ghost i: nat, kind: U32, payload: Bytes, length: U32, granted: bool)
      returns (ok: bool)
      requires Valid() && i < |clients| && clients[i] == client && conns[i].outbound.capacity > 0
      requires OutputInv(conns[i].outbound) && length <= |payload|
      modifies Repr
      ensures Valid() && fresh(Repr - old(Repr))
      ensures conns == Left(old(conns), i, Act(old(conns)[i], Sends(kind, payload, length, granted)))
      ensures ok == Send(old(conns)[i].outbound, kind, payload, length, granted).Kept?
      ensures clients == if ok then old(clients) else old(clients)[..i] + old(clients)[i + 1..]
    {
      ok := Queue(client, i, kind, payload, length, granted);
      if ok {
        Keep(client, i);
      } else {
        Drop(client, i);
      }
    }

    /** has_event_listeners. */
    method HasEventListeners(kind: EventKind) returns (found: bool)
      requires Valid()
      ensures found == HasListeners(conns, kind)
    {
      for i := 0 to |clients|
        invariant forall j :: 0 <= j < i ==> !Selects(conns[j].subscribed, kind)
      {
        assert clients[i].state == conns[i];
        if Selects(clients[i].subscribedEvents, kind) {
          return true;
        }
      }
      return false;
    }

    /** The body of send_event's loop for one client. */
    method Offer(client: IpcClient, ghost i: nat, kind: EventKind, json: Bytes, failing: set<nat>)
      returns (ok: bool)
      requires Valid() && i < |clients| && clients[i] == client && conns[i].outbound.capacity > 0
      requires OutputInv(conns[i].outbound)
      modifies Repr
      ensures Valid() && fresh(Repr - old(Repr))
      ensures conns == Left(old(conns), i, React(old(conns)[i], Event(kind, json, failing)))
      ensures ok == React(old(conns)[i], Event(kind, json, failing)).Kept?
      ensures forall c :: c in clients ==> c in old(clients)
    {
      assert client.state == conns[i];
      ghost var event := Event(kind, json, failing);
      if client.subscribedEvents == NO_EVENTS || !Selects(client.subscribedEvents, kind) {
        assert React(conns[i], event) == Kept(conns[i]);
        return true;
      }
      var granted := client.fd !in failing;
      assert React(conns[i], event) == Act(conns[i], Sends(FrameKind(kind), json, EventLength(json), granted));
      ok := SendReply(client, i, FrameKind(kind), json, EventLength(json), granted);
    }

    /** In the middle of send_event: the clients in front of index i are what a broadcast
        leaves of the first k of the old list, those from i on are the others. */
    ghost predicate Halfway(i: int, all: seq<Conn>, k: int, step: ServerStep)
      reads this
    {
      && 0 <= i <= |clients| && 0 <= k <= |all| && |clients| == |conns| && |clients| - i == |all| - k && Running(all)
      && conns[..i] == Survivors(all[..k], step) && conns[i..] == all[k..]
    }

    /** One round of send_event's loop. */
    method OfferNext(i: nat, ghost all: seq<Conn>, ghost k: nat, kind: EventKind, json: Bytes, failing: set<nat>)
      returns (ok: bool)
      requires Valid() && ServerInv(all) && i < |clients| && Halfway(i, all, k, Event(kind, json, failing))
      modifies Repr
      ensures Valid() && fresh(Repr - old(Repr))
      ensures Halfway(if ok then i + 1 else i, all, k + 1, Event(kind, json, failing))
      ensures forall c :: c in clients ==> c in old(clients)
    {
      ghost var step := Event(kind, json, failing);
      ghost var list := conns;
      assert conns[i] == conns[i..][0] == all[k..][0] == all[k];
      MembersAreGood(all, all[k]);
      LoopStep(list, i, all, k, step);
      ok := Offer(clients[i], i, kind, json, failing);
      assert conns == Left(list, i, React(all[k], step));
    }

    /** send_event: the list shrinks under the loop whenever send_reply drops a client. */
    method SendEvent(kind: EventKind, json: Bytes, failing: set<nat>)
      requires Valid() && ServerInv(conns)
      modifies Repr
      ensures Valid() && fresh(Repr - old(Repr))
      ensures conns == Next(old(conns), Event(kind, json, failing))
      ensures forall c :: c in clients ==> c in old(clients)
    {
      ghost var all := conns;
      ghost var k := 0; // how many of the old clients were visited
      var i: int := 0;
      LoopStarts(conns, Event(kind, json, failing));
      while i < |clients|
        invariant Valid() && fresh(Repr - old(Repr)) && Halfway(i, all, k, Event(kind, json, failing))
        invariant forall c :: c in clients ==> c in old(clients)
        decreases |clients| - i
      {
        var ok := OfferNext(i, all, k, kind, json, failing);
        if !ok {
          i := i - 1;
        }
        i := i + 1;
        k := k + 1;
      }
      LoopEnds(conns, i, all, k, Event(kind, json, failing));
    }

    /** SUBSCRIBE's loop for one client of the list. */
    method AddEvents(client: IpcClient, ghost i: nat, items: seq<Item>) returns (success: bool, hasTick: bool)
      requires Valid() && i < |clients| && clients[i] == client && conns[i].outbound.capacity > 0
      modifies client, this`conns
      ensures Valid() && conns == Left(old(conns), i, Act(old(conns)[i], Subscribes(items)))
      ensures success == AllKnown(items, SubscribeKind)
      ensures success ==> hasTick == (Tick in Named(items, SubscribeKind))
    {
      success, hasTick := client.Subscribe(items);
      assert Around(i);
      Keep(client, i);
    }

    /** UNSUBSCRIBE's loop for one client of the list. */
    method RemoveEvents(client: IpcClient, ghost i: nat, items: seq<Item>) returns (success: bool)
      requires Valid() && i < |clients| && clients[i] == client && conns[i].outbound.capacity > 0
      modifies client, this`conns
      ensures Valid() && conns == Left(old(conns), i, Act(old(conns)[i], Unsubscribes(items)))
      ensures success == AllKnown(items, EventToType)
    {
      success := client.Unsubscribe(items);
      assert Around(i);
      Keep(client, i);
    }

    method SubscribeMember(client: IpcClient, ghost i: nat, items: seq<Item>) returns (success: bool, hasTick: bool)
      requires Valid() && ServerInv(conns) && i < |clients| && clients[i] == client
      modifies client, this`conns
      ensures Valid() && conns == Next(old(conns), Member(client.fd, Subscribes(items))) && ServerInv(conns)
      ensures success == AllKnown(items, SubscribeKind)
      ensures success ==> hasTick == (Tick in Named(items, SubscribeKind))
    {
      MemberStep(conns, i, Subscribes(items));
      success, hasTick := AddEvents(client, i, items);
    }

    method UnsubscribeMember(client: IpcClient, ghost i: nat, items: seq<Item>) returns (success: bool)
      requires Valid() && ServerInv(conns) && i < |clients| && clients[i] == client
      modifies client, this`conns
      ensures Valid() && conns == Next(old(conns), Member(client.fd, Unsubscribes(items))) && ServerInv(conns)
      ensures success == AllKnown(items, EventToType)
    {
      MemberStep(conns, i, Unsubscribes(items));
      success := RemoveEvents(client, i, items);
    }

    /** No other client of the list has this client's descriptor. */
    ghost predicate Knows(client: IpcClient)
      reads this`clients
    {
      forall c :: c in clients && c.fd == client.fd ==> c == client
    }

    lemma MemberIsKnown(i: nat)
      requires Linked() && DistinctFds(conns) && i < |clients|
      ensures Knows(clients[i])
    {
      forall c | c in clients && c.fd == clients[i].fd
        ensures c == clients[i]
      {
        var j :| 0 <= j < |clients| && clients[j] == c;
        assert conns[j].fd == conns[i].fd;
      }
    }

    /** send_reply to a client of the list. */
    method AnswerMember(client: IpcClient, ghost i: nat, kind: U32, text: Bytes, granted: bool)
      requires Valid() && ServerInv(conns) && i < |clients| && clients[i] == client
      modifies Repr
      ensures Valid() && fresh(Repr - old(Repr))
      ensures forall c :: c in clients ==> c in old(clients)
      ensures conns == Left(old(conns), i, Act(old(conns)[i], Sends(kind, text, EventLength(text), granted)))
    {
      MembersAreGood(conns, conns[i]);
      var ok := SendReply(client, i, kind, text, EventLength(text), granted);
    }

    /** send_reply to a client that an earlier send of the same command may have
        dropped; the model ends the command there. */
    method Answer(client: IpcClient, kind: U32, text: Bytes, granted: bool)
      requires Valid() && ServerInv(conns) && Knows(client)
      modifies Repr
      ensures Valid() && fresh(Repr - old(Repr)) && Knows(client)
      ensures conns == Next(old(conns), Reply(client.fd, kind, text, granted)) && ServerInv(conns)
    {
      if client in clients {
        ghost var i :| 0 <= i < |clients| && clients[i] == client;
        MemberStep(conns, i, Sends(kind, text, EventLength(text), granted));
        AnswerMember(client, i, kind, text, granted);
      } else {
        NobodyElse(conns, client.fd, Sends(kind, text, EventLength(text), granted));
      }
    }

    /** send_tick. */
    method SendTick(json: Bytes, failing: set<nat>)
      requires Valid() && ServerInv(conns)
      modifies Repr
      ensures Valid() && fresh(Repr - old(Repr))
      ensures forall c :: c in clients ==> c in old(clients)
      ensures conns == if HasListeners(old(conns), Tick)
                       then Next(old(conns), Event(Tick, json, failing)) else old(conns)
    {
      var found := HasEventListeners(Tick);
      if found {
        SendEvent(Tick, json, failing);
      }
    }

    /** signal_event: an event is sent if somebody listens. */
    method Publish(kind: EventKind, json: Bytes, failing: set<nat>)
      requires Valid() && ServerInv(conns)
      modifies Repr
      ensures Valid() && fresh(Repr - old(Repr)) && ServerInv(conns)
      ensures forall c :: c in clients ==> c in old(clients)
      ensures conns == Next(old(conns), Event(kind, json, failing))
    {
      var found := HasEventListeners(kind);
      PublishStep(conns, Event(kind, json, failing), found);
      if found {
        SendEvent(kind, json, failing);
      }
    }

    /** What the compositor publishes while it carries out a COMMAND. */
    method PublishAll(events: seq<Published>)
      requires Valid() && ServerInv(conns)
      modifies Repr
      ensures Valid() && fresh(Repr - old(Repr)) && ServerInv(conns)
      ensures forall c :: c in clients ==> c in old(clients)
      ensures conns == AfterSteps(old(conns), Broadcasts(events))
    {
      ghost var list := conns;
      assert events[0..] == events;
      for i := 0 to |events|
        invariant Valid() && fresh(Repr - old(Repr)) && ServerInv(conns)
        invariant forall c :: c in clients ==> c in old(clients)
        invariant AfterSteps(conns, Broadcasts(events[i..])) == AfterSteps(list, Broadcasts(events))
      {
        BroadcastsNext(conns, events, i);
        Publish(events[i].kind, events[i].json, events[i].failing);
      }
    }

    /** ipc_client_handle_command, once the payload was read. */
    method HandleCommand(client: IpcClient, ghost i: nat, command: Frame, a: Answers)
      requires Valid() && ServerInv(conns) && i < |clients| && clients[i] == client
      modifies Repr
      ensures Valid() && fresh(Repr - old(Repr)) && ServerInv(conns)
      ensures conns == AfterSteps(old(conns), CommandSteps(old(conns), client.fd, command, a))
    {
      MemberIsKnown(i);
      var kind := command.kind;
      if kind == COMMAND {
        HandleRun(client, i, kind, a);
      } else if kind == SEND_TICK {
        HandleSendTick(client, i, kind, a);
      } else if kind == SUBSCRIBE && a.request.Array? && a.request.items != [] {
        HandleSubscribe(client, i, kind, a);
      } else if kind == UNSUBSCRIBE && a.request.Array? && a.request.items != [] {
        HandleUnsubscribe(client, i, kind, a);
      } else {
        ghost var list := conns;
        var text := if kind in REPLIED then a.reply else StatusText(false);
        OneStep(list, Reply(client.fd, kind, text, a.granted));
        Answer(client, kind, text, a.granted);
      }
    }

    /** The events of a client's COMMAND: afterwards the client is in the list or gone. */
    method PublishFor(client: IpcClient, ghost i: nat, events: seq<Published>)
      requires Valid() && ServerInv(conns) && i < |clients| && clients[i] == client
      modifies Repr
      ensures Valid() && fresh(Repr - old(Repr)) && Knows(client) && ServerInv(conns)
      ensures conns == AfterSteps(old(conns), Broadcasts(events))
    {
      MemberIsKnown(i);
      PublishAll(events);
    }

    /** The COMMAND case: what execute_command makes of the payload is in the answers. */
    method HandleRun(client: IpcClient, ghost i: nat, kind: U32, a: Answers)
      requires Valid() && ServerInv(conns) && i < |clients| && clients[i] == client && kind == COMMAND
      modifies Repr
      ensures Valid() && fresh(Repr - old(Repr))
      ensures conns == AfterSteps(old(conns), CommandSteps(old(conns), client.fd, Frame(kind, []), a))
    {
      ghost var list := conns;
      PublishFor(client, i, a.events);
      ghost var published, objects := conns, Repr;
      Answer(client, kind, a.reply, a.granted);
      assert Repr - old(Repr) <= (Repr - objects) + (objects - old(Repr));
      CommandEnds(list, client.fd, Frame(kind, []), a, published, conns);
    }

    /** The tick of a client's SEND_TICK: afterwards the client is in the list or gone. */
    method TickFor(client: IpcClient, ghost i: nat, a: Answers)
      requires Valid() && ServerInv(conns) && i < |clients| && clients[i] == client
      modifies Repr
      ensures Valid() && fresh(Repr - old(Repr)) && Knows(client) && ServerInv(conns)
      ensures conns == if HasListeners(old(conns), Tick)
                       then Next(old(conns), Event(Tick, a.tick, a.failing)) else old(conns)
    {
      ghost var list := conns;
      MemberIsKnown(i);
      SendTick(a.tick, a.failing);
      TickKeeps(list, a, conns);
    }

    method HandleSendTick(client: IpcClient, ghost i: nat, kind: U32, a: Answers)
      requires Valid() && ServerInv(conns) && i < |clients| && clients[i] == client && kind == SEND_TICK
      modifies Repr
      ensures Valid() && fresh(Repr - old(Repr))
      ensures conns == AfterSteps(old(conns), CommandSteps(old(conns), client.fd, Frame(kind, []), a))
    {
      ghost var list := conns;
      TickFor(client, i, a);
      ghost var ticked, objects := conns, Repr;
      Answer(client, kind, StatusText(true), a.granted);
      assert Repr - old(Repr) <= (Repr - objects) + (objects - old(Repr));
      TickEnds(list, client.fd, Frame(kind, []), a, ticked, conns);
    }

    /** The replies to SUBSCRIBE: the status, and the first tick after it. */
    method AnswerSubscribe(client: IpcClient, kind: U32, success: bool, tick: bool, a: Answers)
      returns (ghost answered: seq<Conn>)
      requires Valid() && ServerInv(conns) && Knows(client)
      modifies Repr
      ensures Valid() && fresh(Repr - old(Repr))
      ensures answered == Next(old(conns), Status(client.fd, kind, success, a.granted)) && ServerInv(answered)
      ensures conns == if tick
                       then Next(answered, Reply(client.fd, FrameKind(Tick), a.firstTick, a.granted)) else answered
    {
      Answer(client, kind, StatusText(success), a.granted);
      answered := conns;
      if tick {
        Answer(client, FrameKind(Tick), a.firstTick, a.granted);
      }
    }

    /** What SUBSCRIBE does with a non-empty array, and the lists in between. */
    method SubscribeAndAnswer(client: IpcClient, ghost i: nat, kind: U32, a: Answers)
      returns (success: bool, hasTick: bool, ghost changed: seq<Conn>, ghost answered: seq<Conn>)
      requires Valid() && ServerInv(conns) && i < |clients| && clients[i] == client && a.request.Array?
      requires Knows(client)
      modifies Repr
      ensures Valid() && fresh(Repr - old(Repr))
      ensures success == AllKnown(a.request.items, SubscribeKind)
      ensures success ==> hasTick == (Tick in Named(a.request.items, SubscribeKind))
      ensures changed == Next(old(conns), Member(client.fd, Subscribes(a.request.items))) && ServerInv(changed)
      ensures answered == Next(changed, Status(client.fd, kind, success, a.granted)) && ServerInv(answered)
      ensures conns == if success && hasTick
                       then Next(answered, Reply(client.fd, FrameKind(Tick), a.firstTick, a.granted)) else answered
    {
      success, hasTick := SubscribeMember(client, i, a.request.items);
      assert Repr == old(Repr);
      changed := conns;
      answered := AnswerSubscribe(client, kind, success, success && hasTick, a);
    }

    method HandleSubscribe(client: IpcClient, ghost i: nat, kind: U32, a: Answers)
      requires Valid() && ServerInv(conns) && i < |clients| && clients[i] == client && kind == SUBSCRIBE
      requires a.request.Array? && a.request.items != []
      modifies Repr
      ensures Valid() && fresh(Repr - old(Repr))
      ensures conns == AfterSteps(old(conns), CommandSteps(old(conns), client.fd, Frame(kind, []), a))
    {
      ghost var list := conns;
      MemberIsKnown(i);
      var success, hasTick;
      ghost var changed, answered;
      success, hasTick, changed, answered := SubscribeAndAnswer(client, i, kind, a);
      SubscribeEnds(list, client.fd, Frame(kind, []), a, success, hasTick, changed, answered, conns);
    }

    method HandleUnsubscribe(client: IpcClient, ghost i: nat, kind: U32, a: Answers)
      requires Valid() && ServerInv(conns) && i < |clients| && clients[i] == client && kind == UNSUBSCRIBE
      requires a.request.Array? && a.request.items != []
      modifies Repr
      ensures Valid() && fresh(Repr - old(Repr))
      ensures conns == AfterSteps(old(conns), CommandSteps(old(conns), client.fd, Frame(kind, []), a))
    {
      ghost var list := conns;
      MemberIsKnown(i);
      var success := UnsubscribeMember(client, i, a.request.items);
      ghost var changed := conns;
      Answer(client, kind, StatusText(success), a.granted);
      UnsubscribeEnds(list, client.fd, Frame(kind, []), a, success, changed, conns);
    }

    /** client_handle_readable with the command it dispatches: one turn of the loop. The
        kernel reports at most the bytes there are. */
    method Serve(client: IpcClient, ghost i: nat, available: nat, fault: Fault, a: Answers)
      requires Valid() && ServerInv(conns) && i < |clients| && clients[i] == client
      modifies Repr
      ensures Valid() && fresh(Repr - old(Repr)) && ServerInv(conns)
      ensures conns == AfterSteps(old(conns), TurnSteps(old(conns), Serves(client.fd, available, fault, a)))
    {
      ghost var list := conns;
      MembersAreGood(list, list[i]);
      assert |client.inbox| == |list[i].inbound.inbox|;
      var command := HandleReadable(client, i, Min(available, |client.inbox|), fault);
      ghost var readOut := conns;
      MemberStep(list, i, Readable(available, fault));
      if command.Some? {
        HandleCommand(client, i, command.value, a);
      }
      ServeCommand(list, i, available, fault, a, command, readOut);
      FirstStep(list, TurnSteps(list, Serves(client.fd, available, fault, a)),
                Member(client.fd, Readable(available, fault)),
                if command.Some? then CommandSteps(readOut, client.fd, command.value, a) else [], readOut, conns);
    }

    // ---------- The event loop ----------

    /** The client with a descriptor, which the event loop passes to its callbacks. */
    method Find(fd: nat) returns (client: IpcClient?, ghost i: nat)
      requires Valid()
      ensures client == null ==> forall j :: 0 <= j < |conns| ==> conns[j].fd != fd
      ensures client != null ==> i < |clients| && clients[i] == client && client.fd == fd
    {
      i := 0;
      for k := 0 to |clients|
        invariant forall j :: 0 <= j < k ==> conns[j].fd != fd
      {
        if clients[k].fd == fd {
          i := k;
          return clients[k], i;
        }
      }
      return null, 0;
    }

    method TakeAccepts(fd: nat)
      requires Valid() && ServerInv(conns)
      modifies Repr
      ensures Valid() && fresh(Repr - old(Repr)) && ServerInv(conns)
      ensures conns == Next(old(conns), Connects(fd))
    {
      var client;
      ghost var i;
      client, i := Find(fd);
      if client != null {
        StepOfUsedFd(conns, i);
      } else {
        AcceptStep(conns, fd);
        Accept(fd);
      }
    }

    method TakeReceives(fd: nat, bytes: Bytes)
      requires Valid() && ServerInv(conns)
      modifies Repr
      ensures Valid() && fresh(Repr - old(Repr)) && ServerInv(conns)
      ensures conns == Next(old(conns), Member(fd, Arrives(bytes)))
    {
      var client;
      ghost var i;
      client, i := Find(fd);
      if client == null {
        NobodyElse(conns, fd, Arrives(bytes));
      } else {
        MemberStep(conns, i, Arrives(bytes));
        Receive(client, i, bytes);
      }
    }

    /** client_handle_writable; the kernel writes at most the bytes it is given. */
    method WriteAtMost(client: IpcClient, ghost i: nat, result: WriteResult)
      requires Valid() && ServerInv(conns) && i < |clients| && clients[i] == client
      modifies Repr
      ensures Valid() && fresh(Repr - old(Repr))
      ensures conns == Left(old(conns), i, Act(old(conns)[i], Writable(result)))
    {
      assert client.writeBufferLen == |conns[i].outbound.queue|;
      var most := AtMost(result, client.writeBufferLen);
      WriteClamps(conns[i], result);
      HandleWritable(client, i, most);
    }

    /** The callback as a step of the run model. */
    method WriteStep(client: IpcClient, ghost i: nat, fd: nat, result: WriteResult)
      requires Valid() && ServerInv(conns) && i < |clients| && clients[i] == client && fd == conns[i].fd
      modifies Repr
      ensures Valid() && fresh(Repr - old(Repr)) && ServerInv(conns)
      ensures conns == Next(old(conns), Member(fd, Writable(result)))
    {
      MemberStep(conns, i, Writable(result));
      WriteAtMost(client, i, result);
    }

    method TakeWrites(fd: nat, result: WriteResult)
      requires Valid() && ServerInv(conns)
      modifies Repr
      ensures Valid() && fresh(Repr - old(Repr)) && ServerInv(conns)
      ensures conns == Next(old(conns), Member(fd, Writable(result)))
    {
      var client;
      ghost var i;
      client, i := Find(fd);
      if client == null {
        NobodyElse(conns, fd, Writable(result));
      } else {
        WriteStep(client, i, fd, result);
      }
    }

    method TakeServes(fd: nat, available: nat, fault: Fault, a: Answers)
      requires Valid() && ServerInv(conns)
      modifies Repr
      ensures Valid() && fresh(Repr - old(Repr)) && ServerInv(conns)
      ensures conns == AfterSteps(old(conns), TurnSteps(old(conns), Serves(fd, available, fault, a)))
    {
      var client;
      ghost var i;
      client, i := Find(fd);
      if client == null {
        TurnOfAbsent(conns, fd, available, fault, a);
        TurnOfNobody(conns, fd, Serves(fd, available, fault, a), Readable(available, fault));
      } else {
        Serve(client, i, available, fault, a);
      }
    }

    /** One turn of the event loop. */
    method Take(turn: Turn)
      requires Valid() && ServerInv(conns)
      modifies Repr
      ensures Valid() && fresh(Repr - old(Repr)) && ServerInv(conns)
      ensures conns == AfterSteps(old(conns), TurnSteps(old(conns), turn))
    {
      match turn {
        case Accepts(fd) =>
          SimpleTurn(conns, turn, Connects(fd));
          TakeAccepts(fd);
        case Receives(fd, bytes) =>
          SimpleTurn(conns, turn, Member(fd, Arrives(bytes)));
          TakeReceives(fd, bytes);
        case Writes(fd, result) =>
          SimpleTurn(conns, turn, Member(fd, Writable(result)));
          TakeWrites(fd, result);
        case Publishes(kind, json, failing) =>
          SimpleTurn(conns, turn, Event(kind, json, failing));
          Publish(kind, json, failing);
        case Serves(fd, available, fault, answers) => TakeServes(fd, available, fault, answers);
      }
    }
  }

  /** The event loop over any turns: the objects end where the run of the model ends, so
      what holds of every run holds of them. */
  method EventLoop(turns: seq<Turn>) returns (server: IpcServer)
    ensures fresh(server) && fresh(server.Repr) && server.Valid()
    ensures server.conns == RunTurns(turns)
  {
    server := new IpcServer();
    for k := 0 to |turns|
      invariant fresh(server) && fresh(server.Repr) && server.Valid()
      invariant server.conns == RunTurns(turns[..k])
    {
      assert turns[..k + 1][..k] == turns[..k];
      server.Take(turns[k]);
    }
    assert turns[..|turns|] == turns;
  }

  function AtMost(result: WriteResult, length: nat): WriteResult {
    if result.Wrote? then Wrote(Min(result.count, length)) else result
  }

  lemma WriteClamps(c: Conn, result: WriteResult)
    requires c.outbound.capacity > 0
    ensures Act(c, Writable(AtMost(result, |c.outbound.queue|))) == Act(c, Writable(result))
  {
  }

  /** The list without an element, in order. */
  ghost function Without<T>(list: seq<T>, gone: T): seq<T> {
    if list == [] then []
    else Without(list[..|list| - 1], gone) + if list[|list| - 1] == gone then [] else [list[|list| - 1]]
  }

  lemma {:induction false} WithoutSplit<T>(a: seq<T>, b: seq<T>, gone: T)
    ensures Without(a + b, gone) == Without(a, gone) + Without(b, gone)
    decreases |b|
  {
    if b == [] {
      assert a + b == a;
    } else {
      assert (a + b)[..|a + b| - 1] == a + b[..|b| - 1];
      WithoutSplit(a, b[..|b| - 1], gone);
    }
  }

  lemma {:induction false} WithoutNone<T>(list: seq<T>, gone: T)
    requires gone !in list
    ensures Without(list, gone) == list
  {
    if list != [] {
      WithoutNone(list[..|list| - 1], gone);
    }
  }

  lemma EraseMiddle<T>(a: seq<T>, x: T, b: seq<T>)
    ensures Without(a + ([x] + b), x) == Without(a + b, x)
  {
    WithoutSplit(a, [x] + b, x);
    WithoutSplit([x], b, x);
    WithoutSplit(a, b, x);
    assert Without([x], x) == [];
  }

  lemma EraseOne<T>(list: seq<T>, i: nat)
    requires i < |list|
    ensures Without(list, list[i]) == Without(list[..i] + list[i + 1..], list[i])
  {
    EraseMiddle(list[..i], list[i], list[i + 1..]);
    SplitAt(list, i);
  }

  /** Where elements are distinct, exactly one goes. */
  lemma WithoutOne<T>(list: seq<T>, i: nat)
    requires i < |list| && forall j, k :: 0 <= j < k < |list| ==> list[j] != list[k]
    ensures Without(list, list[i]) == list[..i] + list[i + 1..]
  {
    EraseOne(list, i);
    WithoutNone(list[..i] + list[i + 1..], list[i]);
  }

  lemma StillDistinct(list: seq<Conn>, i: nat)
    requires i < |list| && DistinctFds(list)
    ensures DistinctFds(list[..i] + list[i + 1..])
  {
  }

  /** The list after the callback of the member at index i. */
  function Left(list: seq<Conn>, i: nat, outcome: Outcome<Conn>): seq<Conn>
    requires i < |list|
  {
    match outcome
    case Kept(d) => list[i := d]
    case Dropped(_) => list[..i] + list[i + 1..]
  }

  lemma SurvivorsNext(all: seq<Conn>, k: nat, step: ServerStep)
    requires Running(all) && k < |all|
    ensures Survivors(all[..k + 1], step) ==
            Survivors(all[..k], step) +
            match React(all[k], step) case Kept(d) => [d] case Dropped(_) => []
  {
    assert all[..k + 1][..k] == all[..k];
  }

  /** Whether the client at the loop's index stays or goes, the next client is the next
      one of the old list. */
  lemma LoopStep(list: seq<Conn>, i: nat, all: seq<Conn>, k: nat, step: ServerStep)
    requires Running(all) && i < |list| && k < |all| && |list| - i == |all| - k
    requires list[..i] == Survivors(all[..k], step) && list[i..] == all[k..]
    ensures var o := React(all[k], step);
            var after, next := Left(list, i, o), if o.Kept? then i + 1 else i;
            after[..next] == Survivors(all[..k + 1], step) && after[next..] == all[k + 1..]
  {
    SurvivorsNext(all, k, step);
    assert all[k..][1..] == all[k + 1..] && list[i..][1..] == list[i + 1..];
  }

  lemma LoopStarts(all: seq<Conn>, step: ServerStep)
    requires Running(all)
    ensures all[..0] == Survivors(all[..0], step) && all[0..] == all
  {
  }

  lemma LoopEnds(list: seq<Conn>, i: nat, all: seq<Conn>, k: nat, step: ServerStep)
    requires Running(all) && step.Event? && i == |list| && k == |all| && list[..i] == Survivors(all[..k], step)
    ensures list == Next(all, step)
  {
    assert list[..i] == list && all[..k] == all;
  }

  lemma AcceptStep(list: seq<Conn>, fd: nat)
    requires ServerInv(list) && forall j :: 0 <= j < |list| ==> list[j].fd != fd
    ensures list + [Fresh(fd)] == Next(list, Connects(fd)) && ServerInv(list + [Fresh(fd)])
  {
    NextKeeps(list, Connects(fd));
    assert fd !in Fds(list);
  }

  /** That list is the next one of the step functions, so every run of the methods is
      a run in the sense of Clients. */
  lemma MemberStep(list: seq<Conn>, i: nat, step: Step)
    requires ServerInv(list) && i < |list|
    ensures Left(list, i, Act(list[i], step)) == Next(list, Member(list[i].fd, step))
    ensures ServerInv(Left(list, i, Act(list[i], step)))
  {
    NextKeeps(list, Member(list[i].fd, step));
    MemberUpdate(list, i, step);
  }

  /** An event for which somebody listens, or nobody. */
  lemma PublishStep(list: seq<Conn>, step: ServerStep, found: bool)
    requires ServerInv(list) && step.Event? && found == HasListeners(list, step.kind)
    ensures ServerInv(Next(list, step)) && (!found ==> Next(list, step) == list)
  {
    NextKeeps(list, step);
    if !found { NobodyListens(list, step); }
  }

  lemma HeaderOfInbox(s: Bytes)
    requires |s| >= HEADER_SIZE
    ensures var buf := s[..HEADER_SIZE];
            HasMagic(buf) == HasMagic(s) && LengthField(buf) == LengthField(s) && KindField(buf) == KindField(s)
  {
    var buf := s[..HEADER_SIZE];
    assert buf[..6] == s[..6] && buf[6..10] == s[6..10] && buf[10..14] == s[10..14];
  }

  /** Clearing a bit that is not set does nothing, so the test before it is sound. */
  lemma ClearUnset(mask: Mask, bit: Mask)
    ensures mask & bit == 0 ==> mask & !bit == mask
  {
  }

  /** One more item, while every name so far was known. */
  lemma NamedNext(items: seq<Item>, i: nat, kindOf: Reader)
    requires i < |items| && AllKnown(items[..i], kindOf)
    ensures AllKnown(items[..i + 1], kindOf) <==> (items[i].Name? ==> kindOf(items[i].text).Some?)
    ensures Named(items[..i + 1], kindOf) ==
            if items[i].Name? && kindOf(items[i].text).Some?
            then Named(items[..i], kindOf) + [kindOf(items[i].text).value]
            else Named(items[..i], kindOf)
    ensures items[i].Name? && kindOf(items[i].text).None? ==> !AllKnown(items, kindOf)
  {
    assert items[..i + 1][..i] == items[..i];
    assert items[..i + 1] == items[..i] + [items[i]];
  }

  lemma SubscribeNext(mask: Mask, items: seq<Item>, i: nat, kindOf: Reader)
    requires i < |items| && AllKnown(items[..i], kindOf)
    ensures var before, after := Named(items[..i], kindOf), Named(items[..i + 1], kindOf);
            if items[i].Other? then AllKnown(items[..i + 1], kindOf) && after == before
            else match kindOf(items[i].text)
              case None => !AllKnown(items, kindOf)
              case Some(k) =>
                && AllKnown(items[..i + 1], kindOf)
                && after == before + [k]
                && SetAll(mask, after) == WithBit(SetAll(mask, before), k)
  {
    NamedNext(items, i, kindOf);
  }

  /** In the middle of the loop of SUBSCRIBE. */
  ghost predicate SubscribedSoFar(start: Mask, items: seq<Item>, i: nat, kindOf: Reader, mask: Mask, hasTick: bool) {
    && i <= |items| && AllKnown(items[..i], kindOf)
    && mask == SetAll(start, Named(items[..i], kindOf)) && hasTick == (Tick in Named(items[..i], kindOf))
  }

  lemma SubscribeStep(start: Mask, items: seq<Item>, i: nat, kindOf: Reader, before: Mask, hasTick: bool,
                      after: Mask, known: bool, tick: bool)
    requires i < |items| && SubscribedSoFar(start, items, i, kindOf, before, hasTick)
    requires match items[i]
             case Other => known && !tick && after == before
             case Name(text) =>
               match kindOf(text)
               case None => !known && after == NO_EVENTS
               case Some(k) => known && tick == (k == Tick) && after == WithBit(before, k)
    ensures known ==> SubscribedSoFar(start, items, i + 1, kindOf, after, hasTick || tick)
    ensures !known ==> !AllKnown(items, kindOf) && after == SubscribedBy(start, items, kindOf)
  {
    SubscribeNext(start, items, i, kindOf);
  }

  lemma SubscribeDone(start: Mask, items: seq<Item>, kindOf: Reader, mask: Mask, hasTick: bool)
    requires SubscribedSoFar(start, items, |items|, kindOf, mask, hasTick)
    ensures AllKnown(items, kindOf) && mask == SubscribedBy(start, items, kindOf)
    ensures hasTick == (Tick in Named(items, kindOf))
  {
    assert items[..|items|] == items;
  }

  lemma UnsubscribeNext(mask: Mask, items: seq<Item>, i: nat, kindOf: Reader)
    requires i < |items| && AllKnown(items[..i], kindOf)
    ensures var before, after := Named(items[..i], kindOf), Named(items[..i + 1], kindOf);
            if items[i].Other? then AllKnown(items[..i + 1], kindOf) && after == before
            else match kindOf(items[i].text)
              case None => !AllKnown(items, kindOf) && Named(items, kindOf) == before
              case Some(k) =>
                && AllKnown(items[..i + 1], kindOf)
                && after == before + [k]
                && ClearAll(mask, after) == ClearAll(mask, before) & !EventMask(k)
  {
    NamedNext(items, i, kindOf);
    if items[i].Name? {
      match kindOf(items[i].text)
      case None => NamedStops(items, i, kindOf);
      case Some(k) =>
    }
  }
}
