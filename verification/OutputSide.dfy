/** What the server sends to one client: the doubling write buffer that send_reply
    fills and client_handle_writable drains. */
module OutputSide {
  import opened Helpers
  import opened Wire

  const INITIAL_CAPACITY: nat := 128

  /** The largest write buffer that is not "too big". */
  const CAPACITY_LIMIT: nat := 4_000_000

  /** The least queue length that no permitted write buffer can hold. */
  const QUEUE_LIMIT: nat := 0x20_0000

  /** The output fields of a client, and the history of the run: `wire` is everything
      written to the socket, `accepted` the frames that send_reply queued. */
  datatype Outbound = Outbound(
    capacity: nat,         // write_buffer_size
    queue: Bytes,          // the first write_buffer_len bytes of write_buffer
    armed: bool,           // the writable event source is registered
    wire: Bytes,
    accepted: seq<Frame>)

  /** What a callback leaves: a live client, or the last state of one that the server
      disconnected. */
  datatype Outcome<+T> = Kept(state: T) | Dropped(state: T)

  datatype WriteResult = Broken | WouldBlock | Failed | Wrote(count: nat)

  const FRESH_OUTBOUND := Outbound(INITIAL_CAPACITY, [], false, [], [])

  /** The doubling loop of send_reply. */
  function Grow(capacity: nat, need: nat): (grown: nat)
    requires capacity > 0
    ensures grown > need && grown >= capacity
    decreases need + 1 - capacity
  {
    if need >= capacity then Grow(2 * capacity, need) else capacity
  }

  /** send_reply: `length` bytes of the payload are queued behind a header. `granted`
      says whether realloc succeeds. */
  function Send(o: Outbound, kind: U32, payload: Bytes, length: U32, granted: bool): Outcome<Outbound>
    requires o.capacity > 0 && length <= |payload|
  {
    var grown := o.(capacity := Grow(o.capacity, |o.queue| + HEADER_SIZE + length));
    if grown.capacity > CAPACITY_LIMIT || !granted then Dropped(grown)
    else
      var f := Frame(kind, payload[..length]);
      Kept(grown.(queue := o.queue + Encode(f), armed := true, accepted := o.accepted + [f]))
  }

  /** client_handle_writable. */
  function Write(o: Outbound, result: WriteResult): Outcome<Outbound>
    requires result.Wrote? ==> result.count <= |o.queue|
  {
    if result.Broken? then Dropped(o)
    else if |o.queue| == 0 then Kept(o)
    else match result
      case Failed => Dropped(o)
      case Wrote(n) =>
        Kept(o.(queue := o.queue[n..], wire := o.wire + o.queue[..n], armed := o.armed && n < |o.queue|))
      case _ => Kept(o)
  }

  function Power2(k: nat): nat {
    if k == 0 then 1 else 2 * Power2(k - 1)
  }

  /** The write buffer has been doubled at most fourteen times. */
  ghost predicate Permitted(capacity: nat) {
    exists k: nat :: k <= 14 && capacity == 128 * Power2(k)
  }

  /** What holds of a live client's output after any run. */
  ghost predicate OutputInv(o: Outbound) {
    && Permitted(o.capacity)
    && |o.queue| < o.capacity
    && o.armed == (o.queue != [])
    && o.wire + o.queue == EncodeAll(o.accepted)
  }

  /** What the peer got of it once the server has dropped the client. */
  ghost predicate CutShort(o: Outbound) {
    o.wire <= EncodeAll(o.accepted)
  }

  ghost predicate GoodOutput(r: Outcome<Outbound>) {
    match r
    case Kept(o) => OutputInv(o)
    case Dropped(o) => CutShort(o)
  }

  lemma Power2Values()
    ensures Power2(0) == 1 && Power2(14) == 0x4000
  {
    assert Power2(4) == 16;
    assert Power2(8) == 256;
    assert Power2(12) == 4096;
  }

  lemma Power2Monotone(j: nat, k: nat)
    requires j <= k
    ensures Power2(j) <= Power2(k)
  {
    if j < k { Power2Monotone(j, k - 1); }
  }

  /** Doubling a permitted capacity gives a permitted one unless it is already 2^21. */
  lemma PermittedRange(capacity: nat)
    requires Permitted(capacity)
    ensures 128 <= capacity <= QUEUE_LIMIT
    ensures capacity < QUEUE_LIMIT ==> Permitted(2 * capacity)
  {
    var k: nat :| k <= 14 && capacity == 128 * Power2(k);
    Power2Values();
    Power2Monotone(0, k);
    Power2Monotone(k, 14);
    if capacity < QUEUE_LIMIT {
      assert 2 * capacity == 128 * Power2(k + 1);
    }
  }

  /** Growing from any permitted capacity ends at a permitted one exactly when the
      need is below 2^21 bytes; otherwise it passes the four-megabyte limit. */
  lemma {:induction false} GrowStaysPermitted(capacity: nat, need: nat)
    requires capacity > 0 && Permitted(capacity)
    ensures need < QUEUE_LIMIT ==> Permitted(Grow(capacity, need)) && Grow(capacity, need) <= CAPACITY_LIMIT
    ensures need >= QUEUE_LIMIT ==> Grow(capacity, need) > CAPACITY_LIMIT
    decreases need + 1 - capacity
  {
    PermittedRange(capacity);
    if need >= capacity && capacity < QUEUE_LIMIT {
      GrowStaysPermitted(2 * capacity, need);
    }
  }

  lemma {:induction false} GrowIsBounded(capacity: nat, need: nat)
    requires capacity > 0
    ensures Grow(capacity, need) <= capacity || Grow(capacity, need) <= 2 * need
    decreases need + 1 - capacity
  {
    if need >= capacity {
      GrowIsBounded(2 * capacity, need);
    }
  }

  /** The doubling loop never wraps a 64-bit size around. */
  lemma GrowFits64Bits(o: Outbound, length: U32)
    requires OutputInv(o)
    ensures o.capacity > 0
    ensures Grow(o.capacity, |o.queue| + HEADER_SIZE + length) < 0x1_0000_0000_0000_0000
  {
    PermittedRange(o.capacity);
    GrowIsBounded(o.capacity, |o.queue| + HEADER_SIZE + length);
  }

  /** send_reply accepts exactly when the queue, the header and the payload together
      stay below 2^21 bytes, however the buffer grew before. */
  lemma SendAcceptsIff(o: Outbound, kind: U32, payload: Bytes, length: U32, granted: bool)
    requires o.capacity > 0 && OutputInv(o) && length <= |payload|
    ensures Send(o, kind, payload, length, granted).Kept?
            <==> granted && |o.queue| + HEADER_SIZE + length < QUEUE_LIMIT
  {
    GrowStaysPermitted(o.capacity, |o.queue| + HEADER_SIZE + length);
  }

  lemma SendKeepsOutput(o: Outbound, kind: U32, payload: Bytes, length: U32, granted: bool)
    requires o.capacity > 0 && OutputInv(o) && length <= |payload|
    ensures GoodOutput(Send(o, kind, payload, length, granted))
  {
    GrowStaysPermitted(o.capacity, |o.queue| + HEADER_SIZE + length);
    Concatenation(o.wire, o.queue, Encode(Frame(kind, payload[..length])));
    EncodeAllAppend(o.accepted, Frame(kind, payload[..length]));
  }

  lemma WriteKeepsOutput(o: Outbound, result: WriteResult)
    requires OutputInv(o) && (result.Wrote? ==> result.count <= |o.queue|)
    ensures GoodOutput(Write(o, result))
  {
    if result.Wrote? {
      Concatenation(o.wire, o.queue[..result.count], o.queue[result.count..]);
      assert o.queue == o.queue[..result.count] + o.queue[result.count..];
    }
  }

  /** What makes a writable callback drop the client: a broken socket, or a write that fails
      while something is queued. */
  predicate WriteFails(o: Outbound, result: WriteResult) {
    result.Broken? || (result.Failed? && o.queue != [])
  }

  /** Nothing else does. A write that succeeds moves exactly as many bytes as were written
      from the queue to the wire. */
  lemma WriteDropsIff(o: Outbound, result: WriteResult)
    requires result.Wrote? ==> result.count <= |o.queue|
    ensures Write(o, result).Dropped? <==> WriteFails(o, result)
    ensures var d := Write(o, result).state;
            && o.wire <= d.wire && d.accepted == o.accepted && d.capacity == o.capacity
            && |d.wire| == |o.wire| + (if result.Wrote? then result.count else 0)
            && d.wire + d.queue == o.wire + o.queue
  {
    if result.Wrote? {
      assert o.queue == o.queue[..result.count] + o.queue[result.count..];
      Concatenation(o.wire, o.queue[..result.count], o.queue[result.count..]);
    }
  }

  /** The client after writes of these counts, one after another, unless one drops it; the
      kernel writes at most what there is. */
  function WriteAll(o: Outbound, counts: seq<nat>): Outcome<Outbound>
    decreases |counts|
  {
    if counts == [] then Kept(o)
    else match Write(o, Wrote(Min(counts[0], |o.queue|)))
      case Dropped(d) => Dropped(d)
      case Kept(d) => WriteAll(d, counts[1..])
  }

  /** Writes always get there: as many of them as bytes are queued, of at least one byte
      each, keep the client, empty the queue, and then everything accepted has been written. */
  lemma {:induction false} WritesDrainTheQueue(o: Outbound, counts: seq<nat>)
    requires OutputInv(o) && |counts| >= |o.queue| && forall i :: 0 <= i < |counts| ==> counts[i] >= 1
    ensures var r := WriteAll(o, counts);
            && r.Kept?
            && r.state.queue == [] && !r.state.armed
            && r.state.accepted == o.accepted && r.state.wire == EncodeAll(o.accepted)
    decreases |counts|
  {
    if counts == [] {
      assert o.wire + [] == o.wire;
    } else {
      var result := Wrote(Min(counts[0], |o.queue|));
      WriteDropsIff(o, result);
      WriteKeepsOutput(o, result);
      WritesDrainTheQueue(Write(o, result).state, counts[1..]);
    }
  }
}
