/** The server's list of connections as a value: one step of the event loop serves
    every connection that the step concerns, and keeps the rest as they are. */
module Clients {
  import opened Helpers
  import opened Wire
  import opened Subscriptions
  import opened OutputSide
  import opened InputSide
  import opened Receiver

  datatype Conn = Conn(fd: nat, inbound: Inbound, outbound: Outbound, subscribed: Mask)

  /** The state set up by handle_connection. */
  function Fresh(fd: nat): Conn {
    Conn(fd, FRESH_INBOUND, FRESH_OUTBOUND, NO_EVENTS)
  }

  ghost predicate ConnInv(c: Conn) {
    InputInv(c.inbound) && OutputInv(c.outbound) && OnlySubscribable(c.subscribed)
  }

  /** What concerns a single connection. */
  datatype Step =
    | Arrives(bytes: Bytes)
    | Readable(available: nat, fault: Fault)
    | Writable(result: WriteResult)
    | Sends(kind: U32, payload: Bytes, length: U32, granted: bool)
    | Subscribes(items: seq<Item>)
    | Unsubscribes(items: seq<Item>)

  /** One step of the event loop. `failing` are the clients whose realloc fails. */
  datatype ServerStep =
    | Connects(fd: nat)
    | Member(fd: nat, step: Step)
    | Event(kind: EventKind, json: Bytes, failing: set<nat>)

  function WithInbound(c: Conn, o: Outcome<Inbound>): Outcome<Conn> {
    match o
    case Kept(i) => Kept(c.(inbound := i))
    case Dropped(i) => Dropped(c.(inbound := i))
  }

  function WithOutbound(c: Conn, o: Outcome<Outbound>): Outcome<Conn> {
    match o
    case Kept(s) => Kept(c.(outbound := s))
    case Dropped(s) => Dropped(c.(outbound := s))
  }

  /** What a step does to its connection. The kernel reports at most the bytes there
      are, and writes at most the bytes it is given. */
  function Act(c: Conn, step: Step): Outcome<Conn>
    requires c.outbound.capacity > 0
  {
    match step
    case Arrives(bytes) => Kept(c.(inbound := Arrive(c.inbound, bytes)))
    case Readable(available, fault) =>
      WithInbound(c, Read(c.inbound, Min(available, |c.inbound.inbox|), fault).outcome)
    case Writable(result) =>
      WithOutbound(c, Write(c.outbound, if result.Wrote? then Wrote(Min(result.count, |c.outbound.queue|)) else result))
    case Sends(kind, payload, length, granted) =>
      WithOutbound(c, Send(c.outbound, kind, payload, Min(length, |payload|), granted))
    case Subscribes(items) => Kept(c.(subscribed := Subscribed(c.subscribed, items)))
    case Unsubscribes(items) => Kept(c.(subscribed := Unsubscribed(c.subscribed, items)))
  }

  /** The length that send_event passes on: the size of the text, cut to 32 bits. */
  function EventLength(json: Bytes): U32 {
    |json| % U32_LIMIT
  }

  /** What a step of the event loop does to any one connection. */
  function React(c: Conn, step: ServerStep): Outcome<Conn>
    requires c.outbound.capacity > 0
  {
    match step
    case Connects(_) => Kept(c)
    case Member(fd, s) => if c.fd == fd then Act(c, s) else Kept(c)
    case Event(kind, json, failing) =>
      if Selects(c.subscribed, kind)
      then WithOutbound(c, Send(c.outbound, FrameKind(kind), json, EventLength(json), c.fd !in failing))
      else Kept(c)
  }

  predicate Running(list: seq<Conn>) {
    forall i :: 0 <= i < |list| ==> list[i].outbound.capacity > 0
  }

  /** The connections that remain, in order, each as the step leaves it. */
  function Survivors(list: seq<Conn>, step: ServerStep): seq<Conn>
    requires Running(list)
  {
    if list == [] then []
    else
      var last := React(list[|list| - 1], step);
      Survivors(list[..|list| - 1], step) + if last.Kept? then [last.state] else []
  }

  function Fds(list: seq<Conn>): set<nat> {
    set i | 0 <= i < |list| :: list[i].fd
  }

  function Next(list: seq<Conn>, step: ServerStep): seq<Conn>
    requires Running(list)
  {
    if step.Connects? && step.fd !in Fds(list) then list + [Fresh(step.fd)]
    else Survivors(list, step)
  }

  ghost predicate DistinctFds(list: seq<Conn>) {
    forall i, j :: 0 <= i < j < |list| ==> list[i].fd != list[j].fd
  }

  /** What holds of the server's list after any run. */
  ghost predicate ServerInv(list: seq<Conn>) {
    DistinctFds(list) && Running(list) && forall i :: 0 <= i < |list| ==> ConnInv(list[i])
  }

  // ---------- One connection ----------

  lemma FreshIsGood(fd: nat)
    ensures ConnInv(Fresh(fd))
  {
    Power2Values();
    assert INITIAL_CAPACITY == 128 * Power2(0);
    NoEvents();
  }

  /** A live connection satisfies the invariant; a dropped one had its first frames
      delivered and its first commands dispatched. */
  ghost predicate Sound(o: Outcome<Conn>) {
    match o
    case Kept(d) => ConnInv(d)
    case Dropped(d) => GoodInput(Dropped(d.inbound)) && CutShort(d.outbound)
  }

  lemma ActKeeps(c: Conn, step: Step)
    requires ConnInv(c) && c.outbound.capacity > 0
    ensures Sound(Act(c, step))
  {
    var o, i := c.outbound, c.inbound;
    match step {
      case Arrives(bytes) => ArriveKeepsInput(i, bytes);
      case Readable(available, fault) => ReadKeepsInput(i, Min(available, |i.inbox|), fault);
      case Writable(r) => WriteKeepsOutput(o, if r.Wrote? then Wrote(Min(r.count, |o.queue|)) else r);
      case Sends(kind, payload, length, granted) =>
        SendKeepsOutput(o, kind, payload, Min(length, |payload|), granted);
      case Subscribes(items) => SubscribeIsUnion(c.subscribed, items);
      case Unsubscribes(items) => UnsubscribeIsDifference(c.subscribed, items);
    }
    LiveOrCutShort(i, o);
  }

  lemma ReactKeeps(c: Conn, step: ServerStep)
    requires ConnInv(c) && c.outbound.capacity > 0
    ensures var r := React(c, step);
            Sound(r) && r.state.fd == c.fd && (r.Kept? ==> r.state.outbound.capacity > 0)
  {
    match step {
      case Connects(_) =>
      case Event(kind, json, failing) =>
        SendKeepsOutput(c.outbound, FrameKind(kind), json, EventLength(json), c.fd !in failing);
        LiveOrCutShort(c.inbound, c.outbound);
      case Member(fd, s) => ActKeeps(c, s);
    }
    if React(c, step).Kept? {
      PermittedRange(React(c, step).state.outbound.capacity);
    }
  }

  lemma LiveOrCutShort(i: Inbound, o: Outbound)
    ensures InputInv(i) ==> GoodInput(Dropped(i))
    ensures OutputInv(o) ==> CutShort(o)
  {
  }

  /** What arrived, what was dispatched, what was accepted and what was written. */
  predicate HistoryGrows(c: Conn, d: Conn) {
    && c.inbound.arrived <= d.inbound.arrived
    && c.inbound.dispatched <= d.inbound.dispatched
    && c.outbound.accepted <= d.outbound.accepted
    && c.outbound.wire <= d.outbound.wire
  }

  /** No step takes back anything. */
  lemma StepGrows(c: Conn, step: ServerStep)
    requires c.outbound.capacity > 0
    ensures HistoryGrows(c, React(c, step).state)
  {
    if step.Member? && step.fd == c.fd && step.step.Readable? {
      var available := Min(step.step.available, |c.inbound.inbox|);
      ReadHistory(c.inbound, available, step.step.fault);
      ReadConsumes(c.inbound, available, step.step.fault);
    }
  }

  // ---------- The whole list ----------

  lemma AppendKeeps(list: seq<Conn>, d: Conn)
    requires ServerInv(list) && ConnInv(d) && d.outbound.capacity > 0 && d.fd !in Fds(list)
    ensures ServerInv(list + [d]) && Fds(list + [d]) == Fds(list) + {d.fd}
  {
    forall i | 0 <= i < |list| ensures list[i].fd != d.fd {
      assert list[i].fd in Fds(list);
    }
    forall fd | fd in Fds(list) ensures fd in Fds(list + [d]) {
      var i :| 0 <= i < |list| && list[i].fd == fd;
      assert (list + [d])[i].fd == fd;
    }
    assert (list + [d])[|list|] == d;
  }

  lemma {:induction false} SurvivorsKeep(list: seq<Conn>, step: ServerStep)
    requires ServerInv(list)
    ensures ServerInv(Survivors(list, step)) && Fds(Survivors(list, step)) <= Fds(list)
  {
    if list != [] {
      var before, last := list[..|list| - 1], list[|list| - 1];
      assert ServerInv(before) && Fds(before) <= Fds(list);
      SurvivorsKeep(before, step);
      ReactKeeps(last, step);
      assert last.fd !in Fds(before) && last.fd in Fds(list);
      if React(last, step).Kept? {
        AppendKeeps(Survivors(before, step), React(last, step).state);
      }
    }
  }

  lemma NextKeeps(list: seq<Conn>, step: ServerStep)
    requires ServerInv(list)
    ensures ServerInv(Next(list, step))
  {
    SurvivorsKeep(list, step);
    if step.Connects? {
      FreshIsGood(step.fd);
      if step.fd !in Fds(list) { AppendKeeps(list, Fresh(step.fd)); }
    }
  }

  /** The server's list after a whole run of the event loop. */
  ghost function Run(steps: seq<ServerStep>): (list: seq<Conn>)
    ensures ServerInv(list)
    decreases |steps|
  {
    if steps == [] then []
    else
      var before := Run(steps[..|steps| - 1]);
      NextKeeps(before, steps[|steps| - 1]);
      Next(before, steps[|steps| - 1])
  }

  /** Safety of every run: each connected client has a write buffer of 128 * 2^k
      bytes, at most 2^21 and strictly larger than its queue, waits for writability
      exactly while the queue is non-empty, has had the first commands of its stream
      dispatched in order, and its peer decodes the first accepted frames in order. */
  lemma EveryRunIsSound(steps: seq<ServerStep>, c: Conn)
    requires c in Run(steps)
    ensures Permitted(c.outbound.capacity) && |c.outbound.queue| < c.outbound.capacity <= QUEUE_LIMIT
    ensures c.outbound.armed <==> c.outbound.queue != []
    ensures c.inbound.dispatched <= Frames(c.inbound.arrived)
    ensures Idle(c.inbound) ==> c.inbound.dispatched == Frames(c.inbound.arrived)
    ensures Responses(c.outbound.wire) <= c.outbound.accepted
    ensures Responses(c.outbound.wire) == c.outbound.accepted <==> c.outbound.queue == []
    ensures OnlySubscribable(c.subscribed)
  {
    var list := Run(steps);
    var i :| 0 <= i < |list| && list[i] == c;
    assert ConnInv(list[i]);
    PermittedRange(c.outbound.capacity);
    LiveOrCutShort(c.inbound, c.outbound);
    DispatchedIsPrefix(Kept(c.inbound));
    if Idle(c.inbound) { IdleHasDispatchedAll(c.inbound); }
    PeerReceivesWhatWasAccepted(c.outbound);
  }

  lemma {:induction false} NobodyElse(list: seq<Conn>, fd: nat, step: Step)
    requires Running(list) && forall i :: 0 <= i < |list| ==> list[i].fd != fd
    ensures Survivors(list, Member(fd, step)) == list
  {
    if list != [] {
      NobodyElse(list[..|list| - 1], fd, step);
    }
  }

  lemma ChangeInside<T>(list: seq<T>, i: nat, d: T)
    requires i < |list| - 1
    ensures var before, last := list[..|list| - 1], list[|list| - 1];
            && before[i := d] + [last] == list[i := d]
            && before[..i] + before[i + 1..] + [last] == list[..i] + list[i + 1..]
  {
  }

  lemma ChangeLast<T>(list: seq<T>, i: nat, d: T)
    requires i == |list| - 1
    ensures list[..i] + [d] == list[i := d] && list[..i] + [] == list[..i] + list[i + 1..]
  {
  }

  lemma SurvivorsLast(list: seq<Conn>, step: ServerStep, last: Outcome<Conn>)
    requires Running(list) && list != [] && last == React(list[|list| - 1], step)
    ensures Survivors(list, step) == Survivors(list[..|list| - 1], step) + if last.Kept? then [last.state] else []
  {
  }

  /** A step of one member updates or removes that member, in place. */
  lemma {:induction false} MemberUpdate(list: seq<Conn>, i: nat, step: Step)
    requires DistinctFds(list) && Running(list) && i < |list|
    ensures Survivors(list, Member(list[i].fd, step)) ==
            match Act(list[i], step)
            case Kept(d) => list[i := d]
            case Dropped(_) => list[..i] + list[i + 1..]
    decreases |list|
  {
    var before, last := list[..|list| - 1], list[|list| - 1];
    var act := Act(list[i], step);
    if i == |list| - 1 {
      NobodyElse(before, last.fd, step);
      SurvivorsLast(list, Member(last.fd, step), act);
      ChangeLast(list, i, act.state);
    } else {
      assert before[i] == list[i] && list[i].fd != last.fd;
      MemberUpdate(before, i, step);
      SurvivorsLast(list, Member(list[i].fd, step), Kept(last));
      ChangeInside(list, i, act.state);
    }
  }

  // ---------- What drops a connection ----------

  /** The steps that end a connection: a broken socket or a failed write while something
      is queued, a read that fails or finds a wrong header, a send without room or memory. */
  predicate Ends(c: Conn, step: Step) {
    match step
    case Arrives(_) => false
    case Readable(available, fault) => ReadFails(c.inbound, Min(available, |c.inbound.inbox|), fault)
    case Writable(result) => WriteFails(c.outbound, result)
    case Sends(_, payload, length, granted) =>
      !granted || |c.outbound.queue| + HEADER_SIZE + Min(length, |payload|) >= QUEUE_LIMIT
    case Subscribes(_) => false
    case Unsubscribes(_) => false
  }

  predicate EndsConn(c: Conn, step: ServerStep) {
    match step
    case Connects(_) => false
    case Member(fd, s) => fd == c.fd && Ends(c, s)
    case Event(_, _, _) => Evicts(c, step)
  }

  /** Exactly these callbacks disconnect. */
  lemma ActDropsIff(c: Conn, step: Step)
    requires ConnInv(c) && c.outbound.capacity > 0
    ensures Act(c, step).Dropped? <==> Ends(c, step)
  {
    match step {
      case Readable(available, fault) => ReadDropsIff(c.inbound, Min(available, |c.inbound.inbox|), fault);
      case Writable(r) =>
        WriteDropsIff(c.outbound, if r.Wrote? then Wrote(Min(r.count, |c.outbound.queue|)) else r);
      case Sends(kind, payload, length, granted) =>
        SendAcceptsIff(c.outbound, kind, payload, Min(length, |payload|), granted);
      case Arrives(_) =>
      case Subscribes(_) =>
      case Unsubscribes(_) =>
    }
  }

  /** Exactly these steps drop a connection. */
  lemma ReactDropsIff(c: Conn, step: ServerStep)
    requires ConnInv(c) && c.outbound.capacity > 0
    ensures React(c, step).Dropped? <==> EndsConn(c, step)
  {
    match step {
      case Connects(_) =>
      case Member(fd, s) => ActDropsIff(c, s);
      case Event(_, _, _) => EventServesOnce(c, step);
    }
  }

  // ---------- One connection over a run ----------

  /** The list after some more steps. */
  ghost function AfterSteps(list: seq<Conn>, steps: seq<ServerStep>): (after: seq<Conn>)
    requires ServerInv(list)
    ensures ServerInv(after)
    decreases |steps|
  {
    if steps == [] then list
    else
      NextKeeps(list, steps[0]);
      AfterSteps(Next(list, steps[0]), steps[1..])
  }

  /** A run goes on from where its first part ended. */
  lemma {:induction false} RunSplits(before: seq<ServerStep>, rest: seq<ServerStep>)
    ensures Run(before + rest) == AfterSteps(Run(before), rest)
    decreases |rest|
  {
    if rest == [] {
      assert before + [] == before;
    } else {
      var more := before + [rest[0]];
      assert more[..|more| - 1] == before && before + rest == more + rest[1..];
      RunSplits(more, rest[1..]);
    }
  }

  /** What some steps make of a connection, unless one of them drops it. */
  ghost function Follow(c: Conn, steps: seq<ServerStep>): (d: Option<Conn>)
    requires ConnInv(c) && c.outbound.capacity > 0
    ensures d.Some? ==> ConnInv(d.value) && d.value.fd == c.fd && d.value.outbound.capacity > 0
    decreases |steps|
  {
    if steps == [] then Some(c)
    else
      ReactKeeps(c, steps[0]);
      match React(c, steps[0])
      case Dropped(_) => None
      case Kept(d) => Follow(d, steps[1..])
  }

  /** A connection lasts exactly as long as no step ends it: over any run it is kept if and
      only if no step, at its turn, is one that ends it. */
  lemma {:induction false} LastsUntilEnded(c: Conn, steps: seq<ServerStep>)
    requires ConnInv(c) && c.outbound.capacity > 0
    ensures Follow(c, steps).Some? <==>
            forall k :: 0 <= k < |steps| && Follow(c, steps[..k]).Some? ==>
                          !EndsConn(Follow(c, steps[..k]).value, steps[k])
    decreases |steps|
  {
    assert forall k :: 0 <= k <= |steps| ==> steps[..k] == steps[..k];
    if steps != [] {
      ReactDropsIff(c, steps[0]);
      ReactKeeps(c, steps[0]);
      assert Follow(c, steps[..0]) == Some(c);
      if !EndsConn(c, steps[0]) {
        var d, rest := React(c, steps[0]).state, steps[1..];
        LastsUntilEnded(d, rest);
        forall k | 0 < k <= |steps| ensures Follow(c, steps[..k]) == Follow(d, rest[..k - 1]) {
          assert steps[..k][1..] == rest[..k - 1];
        }
        forall k | 0 < k < |steps| ensures steps[k] == rest[k - 1] {
        }
      }
    }
  }

  /** The frames that a step queues for a connection that it keeps. */
  function Queues(c: Conn, step: ServerStep): seq<Frame> {
    match step
    case Connects(_) => []
    case Member(fd, Sends(kind, payload, length, _)) =>
      if fd == c.fd then [Frame(kind, payload[..Min(length, |payload|)])] else []
    case Member(_, _) => []
    case Event(kind, _, _) => if Selects(c.subscribed, kind) then [EventFrame(step)] else []
  }

  /** What a step that keeps a connection puts into its queue. */
  lemma StepQueues(c: Conn, step: ServerStep)
    requires ConnInv(c) && c.outbound.capacity > 0 && React(c, step).Kept?
    ensures React(c, step).state.outbound.accepted == c.outbound.accepted + Queues(c, step)
  {
  }

  lemma {:induction false} FollowConcat(c: Conn, before: seq<ServerStep>, rest: seq<ServerStep>)
    requires ConnInv(c) && c.outbound.capacity > 0
    ensures Follow(c, before + rest) ==
            if Follow(c, before).None? then None else Follow(Follow(c, before).value, rest)
    decreases |before|
  {
    if before == [] {
      assert [] + rest == rest;
    } else {
      ReactKeeps(c, before[0]);
      assert (before + rest)[1..] == before[1..] + rest;
      if React(c, before[0]).Kept? {
        FollowConcat(React(c, before[0]).state, before[1..], rest);
      }
    }
  }

  /** The bytes that a peer sends to the server in some steps. */
  function Sent(steps: seq<ServerStep>, fd: nat): Bytes {
    if steps == [] then []
    else
      (if steps[0].Member? && steps[0].fd == fd && steps[0].step.Arrives? then steps[0].step.bytes else [])
      + Sent(steps[1..], fd)
  }

  /** The kinds that a connection listens to after some steps. */
  function Listening(kinds: set<EventKind>, steps: seq<ServerStep>, fd: nat): set<EventKind>
    decreases |steps|
  {
    if steps == [] then kinds
    else
      var next :=
        if steps[0].Member? && steps[0].fd == fd && steps[0].step.Subscribes? then
          KindsAfterSubscribe(kinds, steps[0].step.items)
        else if steps[0].Member? && steps[0].fd == fd && steps[0].step.Unsubscribes? then
          KindsAfterUnsubscribe(kinds, steps[0].step.items)
        else kinds;
      Listening(next, steps[1..], fd)
  }

  lemma StepRecords(c: Conn, step: ServerStep)
    requires ConnInv(c) && c.outbound.capacity > 0 && React(c, step).Kept?
    ensures var d := React(c, step).state;
            && d.inbound.arrived == c.inbound.arrived + Sent([step], c.fd)
            && KindsOf(d.subscribed) == Listening(KindsOf(c.subscribed), [step], c.fd)
  {
    if step.Member? && step.fd == c.fd {
      match step.step {
        case Subscribes(items) => SubscribeByName(c.subscribed, items);
        case Unsubscribes(items) => UnsubscribeByName(c.subscribed, items);
        case Readable(available, fault) =>
          ReadHistory(c.inbound, Min(available, |c.inbound.inbox|), fault);
        case Arrives(_) =>
        case Writable(_) =>
        case Sends(_, _, _, _) =>
      }
    }
  }

  /** Over any run the server has received exactly what the peer sent, in order, and the
      connection listens to exactly the kinds that its requests name. */
  lemma {:induction false} RunsRecord(c: Conn, steps: seq<ServerStep>)
    requires ConnInv(c) && c.outbound.capacity > 0 && Follow(c, steps).Some?
    ensures var d := Follow(c, steps).value;
            && d.inbound.arrived == c.inbound.arrived + Sent(steps, c.fd)
            && KindsOf(d.subscribed) == Listening(KindsOf(c.subscribed), steps, c.fd)
    decreases |steps|
  {
    if steps != [] {
      var d := React(c, steps[0]).state;
      ReactKeeps(c, steps[0]);
      StepRecords(c, steps[0]);
      RunsRecord(d, steps[1..]);
      assert [steps[0]][1..] == [];
      assert Sent([steps[0]], c.fd) + Sent(steps[1..], c.fd) == Sent(steps, c.fd);
      Concatenation(c.inbound.arrived, Sent([steps[0]], c.fd), Sent(steps[1..], c.fd));
    }
  }

  /** A new connection has received nothing, has nothing queued, and listens to nothing. */
  lemma FreshIsBlank(fd: nat)
    ensures var c := Fresh(fd);
            && c.fd == fd && KindsOf(c.subscribed) == {} && c.inbound.arrived == [] && Unparsed(c.inbound) == []
            && c.outbound.queue == [] && c.outbound.wire == [] && !c.outbound.armed
  {
    NoEvents();
  }

  lemma {:induction false} SurvivesInPlace(list: seq<Conn>, step: ServerStep, c: Conn)
    requires Running(list) && c in list && React(c, step).Kept?
    ensures React(c, step).state in Survivors(list, step)
  {
    var n := |list| - 1;
    if c == list[n] {
      assert Survivors(list, step)[|Survivors(list[..n], step)|] == React(c, step).state;
    } else {
      assert c in list[..n];
      SurvivesInPlace(list[..n], step, c);
    }
  }

  lemma StaysInList(list: seq<Conn>, step: ServerStep, c: Conn)
    requires ServerInv(list) && c in list && React(c, step).Kept?
    ensures React(c, step).state in Next(list, step)
  {
    SurvivesInPlace(list, step, c);
    if step.Connects? && step.fd !in Fds(list) {
      assert React(c, step) == Kept(c);
    }
  }

  /** A connection that no step drops is in the list afterwards. */
  lemma {:induction false} FollowedIsThere(list: seq<Conn>, steps: seq<ServerStep>, c: Conn)
    requires ServerInv(list) && c in list && ConnInv(c) && c.outbound.capacity > 0 && Follow(c, steps).Some?
    ensures Follow(c, steps).value in AfterSteps(list, steps)
    decreases |steps|
  {
    if steps != [] {
      NextKeeps(list, steps[0]);
      StaysInList(list, steps[0], c);
      FollowedIsThere(Next(list, steps[0]), steps[1..], React(c, steps[0]).state);
    }
  }

  /** Over any run what a connection received, was served, accepted and wrote only grows. */
  lemma {:induction false} HistoryOnlyGrows(c: Conn, steps: seq<ServerStep>)
    requires ConnInv(c) && c.outbound.capacity > 0 && Follow(c, steps).Some?
    ensures HistoryGrows(c, Follow(c, steps).value)
    decreases |steps|
  {
    if steps != [] {
      StepGrows(c, steps[0]);
      ReactKeeps(c, steps[0]);
      HistoryOnlyGrows(React(c, steps[0]).state, steps[1..]);
    }
  }

  /** Order over time: once the peer decodes anything that was accepted after some moment,
      it has decoded everything that was accepted up to that moment. So a tick comes after
      every event that was queued for the client before it. */
  lemma EarlierFramesComeFirst(c: Conn, steps: seq<ServerStep>)
    requires ConnInv(c) && c.outbound.capacity > 0 && Follow(c, steps).Some?
    ensures var decoded := Responses(Follow(c, steps).value.outbound.wire);
            decoded <= c.outbound.accepted || c.outbound.accepted <= decoded
  {
    var d := Follow(c, steps).value;
    HistoryOnlyGrows(c, steps);
    PeerReceivesWhatWasAccepted(d.outbound);
    PrefixesOfOne(Responses(d.outbound.wire), c.outbound.accepted, d.outbound.accepted);
  }

  lemma PrefixesOfOne<T>(a: seq<T>, b: seq<T>, whole: seq<T>)
    requires a <= whole && b <= whole
    ensures a <= b || b <= a
  {
    assert a == whole[..|a|] && b == whole[..|b|];
  }

  // ---------- Broadcast ----------

  predicate IsSubsequence<T(==)>(sub: seq<T>, list: seq<T>) {
    if list == [] then sub == []
    else IsSubsequence(sub, list[..|list| - 1])
         || (sub != [] && sub[|sub| - 1] == list[|list| - 1] && IsSubsequence(sub[..|sub| - 1], list[..|list| - 1]))
  }

  /** The connections that a step does not drop, as they were before it. */
  function Spared(list: seq<Conn>, step: ServerStep): seq<Conn>
    requires Running(list)
  {
    if list == [] then []
    else Spared(list[..|list| - 1], step) + if React(list[|list| - 1], step).Kept? then [list[|list| - 1]] else []
  }

  /** Each spared connection became the survivor at the same place. */
  ghost predicate Matched(spared: seq<Conn>, after: seq<Conn>, step: ServerStep) {
    |after| == |spared| &&
    forall k :: 0 <= k < |spared| ==> spared[k].outbound.capacity > 0 && Kept(after[k]) == React(spared[k], step)
  }

  lemma AppendMatched(spared: seq<Conn>, after: seq<Conn>, step: ServerStep, c: Conn)
    requires Matched(spared, after, step) && c.outbound.capacity > 0 && React(c, step).Kept?
    ensures Matched(spared + [c], after + [React(c, step).state], step)
  {
  }

  /** The spared connections are those of the list that react well. */
  ghost predicate Picked(spared: seq<Conn>, list: seq<Conn>, step: ServerStep)
    requires Running(list)
  {
    forall c :: c in spared <==> c in list && React(c, step).Kept?
  }

  lemma AppendPicked(spared: seq<Conn>, list: seq<Conn>, step: ServerStep, c: Conn)
    requires Running(list) && Picked(spared, list, step) && c.outbound.capacity > 0
    ensures Running(list + [c])
    ensures Picked(if React(c, step).Kept? then spared + [c] else spared, list + [c], step)
  {
  }

  lemma {:induction false} SparedIsSubsequence(list: seq<Conn>, step: ServerStep)
    requires Running(list)
    ensures IsSubsequence(Spared(list, step), list)
    ensures Picked(Spared(list, step), list, step)
    ensures Matched(Spared(list, step), Survivors(list, step), step)
  {
    if list != [] {
      var before, last := list[..|list| - 1], list[|list| - 1];
      SparedIsSubsequence(before, step);
      assert list == before + [last];
      AppendPicked(Spared(before, step), before, step, last);
      var s := Spared(list, step);
      if React(last, step).Kept? {
        AppendMatched(Spared(before, step), Survivors(before, step), step, last);
        assert s[..|s| - 1] == Spared(before, step);
      } else {
        assert s == Spared(before, step);
      }
    }
  }

  /** The frame that an event puts into the queues. */
  function EventFrame(step: ServerStep): Frame
    requires step.Event?
  {
    Frame(FrameKind(step.kind), step.json[..EventLength(step.json)])
  }

  /** The event is for c, but c's queue has no room for it (or realloc fails). */
  predicate Evicts(c: Conn, step: ServerStep)
    requires step.Event?
  {
    && Selects(c.subscribed, step.kind)
    && (|c.outbound.queue| + |Encode(EventFrame(step))| >= QUEUE_LIMIT || c.fd in step.failing)
  }

  /** What send_event did to a connection that it left connected. */
  predicate ServedOnce(c: Conn, d: Conn, step: ServerStep)
    requires step.Event?
  {
    if Selects(c.subscribed, step.kind) then
      && d.outbound.queue == c.outbound.queue + Encode(EventFrame(step))
      && d.outbound.accepted == c.outbound.accepted + [EventFrame(step)]
      && d == c.(outbound := c.outbound.(capacity := d.outbound.capacity, queue := d.outbound.queue,
                                         armed := true, accepted := d.outbound.accepted))
    else d == c
  }

  lemma EventServesOnce(c: Conn, step: ServerStep)
    requires ConnInv(c) && c.outbound.capacity > 0 && step.Event?
    ensures React(c, step).Kept? <==> !Evicts(c, step)
    ensures React(c, step).Kept? ==> ServedOnce(c, React(c, step).state, step)
  {
    SendAcceptsIff(c.outbound, FrameKind(step.kind), step.json, EventLength(step.json), c.fd !in step.failing);
  }

  lemma MembersAreGood(list: seq<Conn>, c: Conn)
    requires ServerInv(list) && c in list
    ensures ConnInv(c) && c.outbound.capacity > 0
  {
  }

  /** A broadcast leaves the old list, in order, minus exactly the subscribed clients
      whose queue has no room; each remaining subscriber has exactly one more frame
      queued, and nobody else changed. */
  lemma BroadcastIsExact(list: seq<Conn>, step: ServerStep)
    requires ServerInv(list) && step.Event?
    ensures IsSubsequence(Spared(list, step), list)
    ensures forall c :: c in Spared(list, step) <==> c in list && !Evicts(c, step)
    ensures |Next(list, step)| == |Spared(list, step)|
    ensures forall k :: 0 <= k < |Spared(list, step)| ==> ServedOnce(Spared(list, step)[k], Next(list, step)[k], step)
  {
    var spared := Spared(list, step);
    SparedIsSubsequence(list, step);
    forall c | c in list
      ensures React(c, step).Kept? <==> !Evicts(c, step)
    {
      MembersAreGood(list, c);
      EventServesOnce(c, step);
    }
    forall k | 0 <= k < |spared|
      ensures ServedOnce(spared[k], Next(list, step)[k], step)
    {
      MembersAreGood(list, spared[k]);
      EventServesOnce(spared[k], step);
    }
  }

  /** has_event_listeners. */
  predicate HasListeners(list: seq<Conn>, kind: EventKind) {
    exists i :: 0 <= i < |list| && Selects(list[i].subscribed, kind)
  }

  /** Without listeners a broadcast does nothing, so skipping it is sound. */
  lemma {:induction false} NobodyListens(list: seq<Conn>, step: ServerStep)
    requires Running(list) && step.Event? && !HasListeners(list, step.kind)
    ensures Survivors(list, step) == list
  {
    if list != [] {
      var before := list[..|list| - 1];
      forall i | 0 <= i < |before| ensures !Selects(before[i].subscribed, step.kind) {
        assert before[i] == list[i];
      }
      NobodyListens(before, step);
      assert !Selects(list[|list| - 1].subscribed, step.kind);
    }
  }
}
