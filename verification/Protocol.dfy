/** The command handler between the two directions of a connection: which replies a
    dispatched command causes, and what that means for a peer over whole runs. */
module Protocol {
  import opened Helpers
  import opened Wire
  import opened Subscriptions
  import opened OutputSide
  import opened InputSide
  import opened Receiver
  import opened Clients

  /** Payload types of requests whose reply is a JSON text made elsewhere:
      GET_WORKSPACES, GET_OUTPUTS, GET_TREE, GET_VERSION, GET_CONFIG, GET_INPUTS and
      GET_SEATS. */
  const REPLIED: set<U32> := {1, 3, 4, 7, 9, 100, 101}

  const COMMAND: U32 := 0
  const SUBSCRIBE: U32 := 2
  const SEND_TICK: U32 := 10
  const UNSUBSCRIBE: U32 := 200

  /** An event that the compositor publishes, and the clients whose realloc fails. */
  datatype Published = Published(kind: EventKind, json: Bytes, failing: set<nat>)

  /** What the code that is not modelled answers while one command is handled. */
  datatype Answers = Answers(
    events: seq<Published>, // what the handlers of a COMMAND make the compositor publish
    reply: Bytes,        // the JSON text of the reply
    request: Request,    // the payload, parsed as JSON
    tick: Bytes,         // the JSON text of the tick event
    firstTick: Bytes,    // the JSON text of a subscriber's first tick
    granted: bool,       // realloc succeeds for the client that asked
    failing: set<nat>)   // the other clients whose realloc fails

  function Ascii(text: string): (b: Bytes)
    ensures |b| == |text|
  {
    seq(|text|, i requires 0 <= i < |text| => text[i] as int % 256)
  }

  /** The text that send_status sends. */
  function StatusText(success: bool): Bytes {
    Ascii(if success then "{\"success\": true}" else "{\"success\": false}")
  }

  function Reply(fd: nat, kind: U32, text: Bytes, granted: bool): ServerStep {
    Member(fd, Sends(kind, text, EventLength(text), granted))
  }

  /** send_status. */
  function Status(fd: nat, kind: U32, success: bool, granted: bool): ServerStep {
    Reply(fd, kind, StatusText(success), granted)
  }

  function Broadcasts(events: seq<Published>): seq<ServerStep> {
    seq(|events|, j requires 0 <= j < |events| => Event(events[j].kind, events[j].json, events[j].failing))
  }

  /** The text that answers a command. */
  function ReplyText(kind: U32, a: Answers): Bytes {
    if kind == COMMAND || kind in REPLIED then a.reply
    else if kind == SEND_TICK then StatusText(true)
    else if a.request.NotAnArray? || a.request.items == [] then StatusText(false)
    else if kind == SUBSCRIBE then StatusText(AllKnown(a.request.items, SubscribeKind))
    else if kind == UNSUBSCRIBE then StatusText(AllKnown(a.request.items, EventToType))
    else StatusText(false)
  }

  /** The frame that answers a command. */
  function ReplyTo(command: Frame, a: Answers): Frame {
    ReplyFrame(command.kind, ReplyText(command.kind, a))
  }

  function ReplyFrame(kind: U32, text: Bytes): Frame {
    Frame(kind, text[..EventLength(text)])
  }

  /** The steps of ipc_client_handle_command, after the payload was read. */
  function CommandSteps(list: seq<Conn>, fd: nat, command: Frame, a: Answers): seq<ServerStep> {
    var kind := command.kind;
    var reply := Reply(fd, kind, ReplyText(kind, a), a.granted);
    if kind == COMMAND then Broadcasts(a.events) + [reply]
    else if kind == SEND_TICK then
      (if HasListeners(list, Tick) then [Event(Tick, a.tick, a.failing)] else []) + [reply]
    else if kind == SUBSCRIBE && a.request.Array? && a.request.items != [] then
      var items := a.request.items;
      [Member(fd, Subscribes(items)), reply]
      + if AllKnown(items, SubscribeKind) && Tick in Named(items, SubscribeKind)
        then [Reply(fd, FrameKind(Tick), a.firstTick, a.granted)] else []
    else if kind == UNSUBSCRIBE && a.request.Array? && a.request.items != [] then
      [Member(fd, Unsubscribes(a.request.items)), reply]
    else [reply]
  }

  /** One turn of the event loop. */
  datatype Turn =
    | Accepts(fd: nat)
    | Receives(fd: nat, bytes: Bytes)
    | Writes(fd: nat, result: WriteResult)
    | Publishes(kind: EventKind, json: Bytes, failing: set<nat>)
    | Serves(fd: nat, available: nat, fault: Fault, answers: Answers)

  /** The command that a readable callback of fd dispatches. */
  function CommandOf(list: seq<Conn>, fd: nat, available: nat, fault: Fault): Option<Frame> {
    if list == [] then None
    else if list[|list| - 1].fd == fd then
      var i := list[|list| - 1].inbound;
      Read(i, Min(available, |i.inbox|), fault).command
    else CommandOf(list[..|list| - 1], fd, available, fault)
  }

  ghost function TurnSteps(list: seq<Conn>, turn: Turn): seq<ServerStep>
    requires ServerInv(list)
  {
    match turn
    case Accepts(fd) => [Connects(fd)]
    case Receives(fd, bytes) => [Member(fd, Arrives(bytes))]
    case Writes(fd, result) => [Member(fd, Writable(result))]
    case Publishes(kind, json, failing) => [Event(kind, json, failing)]
    case Serves(fd, available, fault, answers) =>
      var readable := Member(fd, Readable(available, fault));
      match CommandOf(list, fd, available, fault)
      case None => [readable]
      case Some(command) => [readable] + CommandSteps(AfterSteps(list, [readable]), fd, command, answers)
  }

  /** The list after a whole run of turns. */
  ghost function RunTurns(turns: seq<Turn>): (list: seq<Conn>)
    ensures ServerInv(list)
  {
    if turns == [] then []
    else
      var before := RunTurns(turns[..|turns| - 1]);
      AfterSteps(before, TurnSteps(before, turns[|turns| - 1]))
  }

  // ---------- Replies and requests ----------

  /** Event types have the highest bit set; what is below it is a request or a reply. */
  const EVENT_BIT: U32 := 0x8000_0000

  function IfRequest(f: Frame): seq<Frame> {
    if f.kind < EVENT_BIT then [f] else []
  }

  /** The requests, or the replies, among some frames. */
  function Requests(fs: seq<Frame>): seq<Frame> {
    if fs == [] then [] else Requests(fs[..|fs| - 1]) + IfRequest(fs[|fs| - 1])
  }

  lemma RequestsAppend(fs: seq<Frame>, f: Frame)
    ensures Requests(fs + [f]) == Requests(fs) + IfRequest(f)
  {
    assert (fs + [f])[..|fs|] == fs;
  }

  lemma {:induction false} RequestsPrefix(fs: seq<Frame>, gs: seq<Frame>)
    requires fs <= gs
    ensures Requests(fs) <= Requests(gs)
    decreases |gs|
  {
    if fs != gs {
      RequestsPrefix(fs, gs[..|gs| - 1]);
    }
  }

  /** A request that a peer made, and what the server was answered while it handled it. */
  datatype Exchange = Exchange(request: Frame, answers: Answers)

  function Asked(talk: seq<Exchange>): (fs: seq<Frame>)
    ensures |fs| == |talk|
  {
    seq(|talk|, j requires 0 <= j < |talk| => talk[j].request)
  }

  function Told(talk: seq<Exchange>): (fs: seq<Frame>)
    ensures |fs| == |talk|
  {
    seq(|talk|, j requires 0 <= j < |talk| => ReplyTo(talk[j].request, talk[j].answers))
  }

  /** The connection of fd has made these requests and was sent these replies. */
  predicate Balanced(c: Conn, asked: seq<Frame>, told: seq<Frame>) {
    Requests(c.inbound.dispatched) == asked && Requests(c.outbound.accepted) == told
  }

  predicate AllBalanced(list: seq<Conn>, fd: nat, asked: seq<Frame>, told: seq<Frame>) {
    forall i :: 0 <= i < |list| && list[i].fd == fd ==> Balanced(list[i], asked, told)
  }

  /** A step that neither dispatches a request of fd nor queues a reply to it. */
  predicate Neutral(step: ServerStep, fd: nat) {
    match step
    case Connects(_) => true
    case Event(_, _, _) => true
    case Member(f, Readable(_, _)) => f != fd
    case Member(f, Sends(kind, _, _, _)) => f != fd || kind >= EVENT_BIT
    case Member(_, _) => true
  }

  lemma SendTells(o: Outbound, kind: U32, payload: Bytes, length: U32, granted: bool)
    requires o.capacity > 0 && length <= |payload|
    ensures var r := Send(o, kind, payload, length, granted);
            r.Kept? ==> Requests(r.state.accepted) == Requests(o.accepted) + IfRequest(Frame(kind, payload[..length]))
  {
    RequestsAppend(o.accepted, Frame(kind, payload[..length]));
  }

  lemma ReadAsks(i: Inbound, available: nat, fault: Fault)
    requires available <= |i.inbox|
    ensures var r := Read(i, available, fault);
            Requests(r.outcome.state.dispatched) ==
            Requests(i.dispatched) + if r.command.Some? then IfRequest(r.command.value) else []
  {
    ReadHistory(i, available, fault);
    ReadConsumes(i, available, fault);
    var r := Read(i, available, fault);
    if r.command.Some? {
      RequestsAppend(i.dispatched, r.command.value);
    }
  }

  predicate SameBalance(c: Conn, d: Conn) {
    && d.fd == c.fd && d.inbound.dispatched == c.inbound.dispatched
    && Requests(d.outbound.accepted) == Requests(c.outbound.accepted)
  }

  lemma ActNeutral(c: Conn, step: Step)
    requires c.outbound.capacity > 0 && Neutral(Member(c.fd, step), c.fd) && Act(c, step).Kept?
    ensures SameBalance(c, Act(c, step).state)
  {
    match step {
      case Sends(kind, payload, length, granted) =>
        SendTells(c.outbound, kind, payload, Min(length, |payload|), granted);
      case Arrives(_) =>
      case Readable(_, _) =>
      case Writable(_) =>
      case Subscribes(_) =>
      case Unsubscribes(_) =>
    }
  }

  lemma EventNeutral(c: Conn, kind: EventKind, json: Bytes, failing: set<nat>)
    requires c.outbound.capacity > 0 && React(c, Event(kind, json, failing)).Kept?
    ensures SameBalance(c, React(c, Event(kind, json, failing)).state)
  {
    SendTells(c.outbound, FrameKind(kind), json, EventLength(json), c.fd !in failing);
  }

  lemma ReactNeutral(c: Conn, step: ServerStep)
    requires c.outbound.capacity > 0 && Neutral(step, c.fd) && React(c, step).Kept?
    ensures SameBalance(c, React(c, step).state)
  {
    match step {
      case Connects(_) =>
      case Event(kind, json, failing) => EventNeutral(c, kind, json, failing);
      case Member(fd, s) =>
        if c.fd == fd { ActNeutral(c, s); }
    }
  }

  /** Every connection after a step was there before it, unless it is new. */
  lemma Origin(list: seq<Conn>, step: ServerStep, k: nat) returns (c: Conn)
    requires ServerInv(list) && !step.Connects? && k < |Next(list, step)|
    ensures c in list && c.outbound.capacity > 0 && ConnInv(c) && React(c, step) == Kept(Next(list, step)[k])
    ensures c.fd == Next(list, step)[k].fd
  {
    SparedIsSubsequence(list, step);
    c := Spared(list, step)[k];
    assert c in Spared(list, step);
    MembersAreGood(list, c);
    ReactKeeps(c, step);
  }

  lemma BalancedMember(list: seq<Conn>, c: Conn, fd: nat, asked: seq<Frame>, told: seq<Frame>)
    requires AllBalanced(list, fd, asked, told) && c in list && c.fd == fd
    ensures Balanced(c, asked, told)
  {
  }

  lemma NeutralKeepsBalance(list: seq<Conn>, step: ServerStep, fd: nat, asked: seq<Frame>, told: seq<Frame>)
    requires ServerInv(list) && AllBalanced(list, fd, asked, told) && Neutral(step, fd) && !step.Connects?
    ensures AllBalanced(Next(list, step), fd, asked, told)
  {
    var after := Next(list, step);
    forall k | 0 <= k < |after| && after[k].fd == fd
      ensures Balanced(after[k], asked, told)
    {
      var c := Origin(list, step, k);
      BalancedMember(list, c, fd, asked, told);
      ReactNeutral(c, step);
    }
  }

  /** A new connection starts a new talk; another one changes nothing. */
  lemma ConnectsStartsTalk(list: seq<Conn>, newFd: nat, fd: nat, asked: seq<Frame>, told: seq<Frame>)
    requires ServerInv(list) && AllBalanced(list, fd, asked, told)
    ensures if newFd == fd && fd !in Fds(list) then AllBalanced(Next(list, Connects(newFd)), fd, [], [])
            else AllBalanced(Next(list, Connects(newFd)), fd, asked, told)
  {
    var step := Connects(newFd);
    if newFd !in Fds(list) {
      assert Balanced(Fresh(newFd), [], []);
      forall i | 0 <= i < |list| ensures list[i].fd != newFd {
        assert list[i].fd in Fds(list);
      }
    } else {
      assert NobodyReacts(list, step);
      UnchangedByNobody(list, step);
    }
  }

  predicate NobodyReacts(list: seq<Conn>, step: ServerStep)
    requires Running(list)
  {
    forall i :: 0 <= i < |list| ==> React(list[i], step) == Kept(list[i])
  }

  lemma {:induction false} UnchangedByNobody(list: seq<Conn>, step: ServerStep)
    requires Running(list) && NobodyReacts(list, step)
    ensures Survivors(list, step) == list
  {
    if list != [] {
      var before := list[..|list| - 1];
      forall i | 0 <= i < |before| ensures React(before[i], step) == Kept(before[i]) {
        assert before[i] == list[i];
      }
      UnchangedByNobody(before, step);
      SurvivorsLast(list, step, Kept(list[|list| - 1]));
    }
  }

  lemma ReplyTellsOne(c: Conn, kind: U32, text: Bytes, granted: bool, d: Conn)
    requires c.outbound.capacity > 0 && React(c, Reply(c.fd, kind, text, granted)) == Kept(d)
    ensures Requests(d.inbound.dispatched) == Requests(c.inbound.dispatched)
    ensures Requests(d.outbound.accepted) == Requests(c.outbound.accepted) + IfRequest(ReplyFrame(kind, text))
  {
    SendTells(c.outbound, kind, text, EventLength(text), granted);
  }

  /** A reply that is accepted is told. */
  lemma ReplyTells(list: seq<Conn>, fd: nat, kind: U32, text: Bytes, granted: bool,
                   asked: seq<Frame>, told: seq<Frame>)
    requires ServerInv(list) && AllBalanced(list, fd, asked, told)
    ensures AllBalanced(Next(list, Reply(fd, kind, text, granted)), fd, asked, told + IfRequest(ReplyFrame(kind, text)))
  {
    var step := Reply(fd, kind, text, granted);
    var after := Next(list, step);
    forall k | 0 <= k < |after| && after[k].fd == fd
      ensures Balanced(after[k], asked, told + IfRequest(ReplyFrame(kind, text)))
    {
      var c := Origin(list, step, k);
      BalancedMember(list, c, fd, asked, told);
      ReplyTellsOne(c, kind, text, granted, after[k]);
    }
  }

  predicate AllNeutral(steps: seq<ServerStep>, fd: nat) {
    forall j :: 0 <= j < |steps| ==> Neutral(steps[j], fd) && !steps[j].Connects?
  }

  lemma {:induction false} NeutralRunKeepsBalance(list: seq<Conn>, steps: seq<ServerStep>, fd: nat,
                                                  asked: seq<Frame>, told: seq<Frame>)
    requires ServerInv(list) && AllBalanced(list, fd, asked, told) && AllNeutral(steps, fd)
    ensures AllBalanced(AfterSteps(list, steps), fd, asked, told)
    decreases |steps|
  {
    if steps != [] {
      NextKeeps(list, steps[0]);
      NeutralKeepsBalance(list, steps[0], fd, asked, told);
      NeutralRunKeepsBalance(Next(list, steps[0]), steps[1..], fd, asked, told);
    }
  }

  /** The step at index r is this reply to fd. */
  predicate RepliesAt(steps: seq<ServerStep>, r: nat, fd: nat, kind: U32, text: Bytes, granted: bool) {
    r < |steps| && steps[r] == Reply(fd, kind, text, granted)
  }

  lemma {:induction false} RunTells(list: seq<Conn>, steps: seq<ServerStep>, r: nat, fd: nat, kind: U32, text: Bytes,
                                    granted: bool, asked: seq<Frame>, told: seq<Frame>)
    requires ServerInv(list) && AllBalanced(list, fd, asked, told)
    requires RepliesAt(steps, r, fd, kind, text, granted)
    requires AllNeutral(steps[..r], fd) && AllNeutral(steps[r + 1..], fd)
    ensures AllBalanced(AfterSteps(list, steps), fd, asked, told + IfRequest(ReplyFrame(kind, text)))
    decreases r
  {
    NextKeeps(list, steps[0]);
    var next, rest := Next(list, steps[0]), steps[1..];
    if r == 0 {
      ReplyTells(list, fd, kind, text, granted, asked, told);
      NeutralRunKeepsBalance(next, rest, fd, asked, told + IfRequest(ReplyFrame(kind, text)));
    } else {
      assert steps[..r][0] == steps[0];
      NeutralKeepsBalance(list, steps[0], fd, asked, told);
      assert rest[..r - 1] == steps[..r][1..] && rest[r..] == steps[r + 1..];
      RunTells(next, rest, r - 1, fd, kind, text, granted, asked, told);
    }
  }

  /** The answer to one command, whatever it is, is one reply of the command's type with
      the text for it; all else that it queues are events. */
  lemma OneReply(list: seq<Conn>, fd: nat, command: Frame, a: Answers) returns (r: nat)
    ensures var steps := CommandSteps(list, fd, command, a);
            && RepliesAt(steps, r, fd, command.kind, ReplyText(command.kind, a), a.granted)
            && AllNeutral(steps[..r], fd) && AllNeutral(steps[r + 1..], fd)
  {
    var steps := CommandSteps(list, fd, command, a);
    r := if command.kind == COMMAND then |a.events| else if |steps| > 1 then 1 else 0;
  }

  /** A command of one client is nothing to the talk with another. */
  lemma OthersAreNeutral(list: seq<Conn>, f: nat, command: Frame, a: Answers, fd: nat)
    requires f != fd
    ensures AllNeutral(CommandSteps(list, f, command, a), fd)
  {
  }

  lemma {:induction false} CommandOfAbsent(list: seq<Conn>, fd: nat, available: nat, fault: Fault)
    requires forall i :: 0 <= i < |list| ==> list[i].fd != fd
    ensures CommandOf(list, fd, available, fault) == None
  {
    if list != [] {
      CommandOfAbsent(list[..|list| - 1], fd, available, fault);
    }
  }

  lemma {:induction false} CommandOfMember(list: seq<Conn>, i: nat, available: nat, fault: Fault)
    requires DistinctFds(list) && i < |list|
    ensures CommandOf(list, list[i].fd, available, fault) ==
            Read(list[i].inbound, Min(available, |list[i].inbound.inbox|), fault).command
    decreases |list|
  {
    if i < |list| - 1 {
      assert list[..|list| - 1][i] == list[i];
      CommandOfMember(list[..|list| - 1], i, available, fault);
    }
  }

  function NewlyAsked(command: Option<Frame>): seq<Frame> {
    if command.Some? then IfRequest(command.value) else []
  }

  /** A readable callback adds a request to the talk exactly if it dispatches one. */
  lemma ReadableAsks(list: seq<Conn>, fd: nat, available: nat, fault: Fault, asked: seq<Frame>, told: seq<Frame>)
    requires ServerInv(list) && AllBalanced(list, fd, asked, told)
    ensures AllBalanced(Next(list, Member(fd, Readable(available, fault))), fd,
                        asked + NewlyAsked(CommandOf(list, fd, available, fault)), told)
  {
    var step := Member(fd, Readable(available, fault));
    var after := Next(list, step);
    forall k | 0 <= k < |after| && after[k].fd == fd
      ensures Balanced(after[k], asked + NewlyAsked(CommandOf(list, fd, available, fault)), told)
    {
      var c := Origin(list, step, k);
      BalancedMember(list, c, fd, asked, told);
      ReadAsks(c.inbound, Min(available, |c.inbound.inbox|), fault);
      var i :| 0 <= i < |list| && list[i] == c;
      CommandOfMember(list, i, available, fault);
    }
  }

  lemma OneStep(list: seq<Conn>, step: ServerStep)
    requires ServerInv(list)
    ensures AfterSteps(list, [step]) == Next(list, step)
  {
    NextKeeps(list, step);
    assert AfterSteps(list, [step]) == AfterSteps(Next(list, step), []);
  }

  lemma AfterConcat(list: seq<Conn>, first: ServerStep, rest: seq<ServerStep>)
    requires ServerInv(list)
    ensures AfterSteps(list, [first] + rest) == AfterSteps(AfterSteps(list, [first]), rest)
  {
    OneStep(list, first);
    assert ([first] + rest)[1..] == rest;
  }

  lemma TwoSteps(list: seq<Conn>, first: ServerStep, second: ServerStep)
    requires ServerInv(list)
    ensures ServerInv(Next(list, first))
    ensures AfterSteps(list, [first, second]) == Next(Next(list, first), second)
  {
    NextKeeps(list, first);
    OneStep(Next(list, first), second);
    assert [first, second][1..] == [second];
  }

  lemma ThreeSteps(list: seq<Conn>, first: ServerStep, second: ServerStep, third: ServerStep)
    requires ServerInv(list)
    ensures ServerInv(Next(list, first)) && ServerInv(Next(Next(list, first), second))
    ensures AfterSteps(list, [first, second, third]) == Next(Next(Next(list, first), second), third)
  {
    NextKeeps(list, first);
    TwoSteps(Next(list, first), second, third);
    assert [first, second, third][1..] == [second, third];
  }

  // ---------- The steps of one command, as the methods of Server take them ----------

  lemma TickKeeps(list: seq<Conn>, a: Answers, ticked: seq<Conn>)
    requires ServerInv(list)
    requires ticked == if HasListeners(list, Tick) then Next(list, Event(Tick, a.tick, a.failing)) else list
    ensures ServerInv(ticked)
  {
    NextKeeps(list, Event(Tick, a.tick, a.failing));
  }

  lemma TickCommand(list: seq<Conn>, fd: nat, command: Frame, a: Answers)
    requires command.kind == SEND_TICK
    ensures CommandSteps(list, fd, command, a) ==
            (if HasListeners(list, Tick) then [Event(Tick, a.tick, a.failing)] else [])
            + [Status(fd, command.kind, true, a.granted)]
  {
  }

  /** A step that may be left out, and one more. */
  lemma MaybeThenOne(list: seq<Conn>, steps: seq<ServerStep>, maybe: Option<ServerStep>, last: ServerStep,
                     changed: seq<Conn>, after: seq<Conn>)
    requires ServerInv(list) && ServerInv(changed)
    requires steps == (if maybe.Some? then [maybe.value] else []) + [last]
    requires changed == if maybe.Some? then Next(list, maybe.value) else list
    requires after == Next(changed, last)
    ensures after == AfterSteps(list, steps)
  {
    if maybe.Some? {
      TwoSteps(list, maybe.value, last);
      assert steps == [maybe.value, last];
    } else {
      OneStep(list, last);
      assert steps == [last];
    }
  }

  /** SEND_TICK, the broadcast and the status one after the other. */
  lemma TickEnds(list: seq<Conn>, fd: nat, command: Frame, a: Answers, ticked: seq<Conn>, after: seq<Conn>)
    requires command.kind == SEND_TICK && ServerInv(list) && ServerInv(ticked)
    requires ticked == if HasListeners(list, Tick) then Next(list, Event(Tick, a.tick, a.failing)) else list
    requires after == Next(ticked, Status(fd, command.kind, true, a.granted))
    ensures after == AfterSteps(list, CommandSteps(list, fd, command, a))
  {
    TickCommand(list, fd, command, a);
    MaybeThenOne(list, CommandSteps(list, fd, command, a),
                 if HasListeners(list, Tick) then Some(Event(Tick, a.tick, a.failing)) else None,
                 Status(fd, command.kind, true, a.granted), ticked, after);
  }

  lemma SubscribeCommand(list: seq<Conn>, fd: nat, command: Frame, a: Answers, success: bool, tick: bool)
    requires command.kind == SUBSCRIBE && a.request.Array? && a.request.items != []
    requires success == AllKnown(a.request.items, SubscribeKind)
    requires success ==> tick == (Tick in Named(a.request.items, SubscribeKind))
    ensures CommandSteps(list, fd, command, a) ==
            [Member(fd, Subscribes(a.request.items)), Status(fd, command.kind, success, a.granted)]
            + if success && tick then [Reply(fd, FrameKind(Tick), a.firstTick, a.granted)] else []
  {
  }

  lemma UnsubscribeCommand(list: seq<Conn>, fd: nat, command: Frame, a: Answers, success: bool)
    requires command.kind == UNSUBSCRIBE && a.request.Array? && a.request.items != []
    requires success == AllKnown(a.request.items, EventToType)
    ensures CommandSteps(list, fd, command, a) ==
            [Member(fd, Unsubscribes(a.request.items)), Status(fd, command.kind, success, a.granted)]
  {
  }

  lemma BroadcastsNext(list: seq<Conn>, events: seq<Published>, i: nat)
    requires ServerInv(list) && i < |events|
    ensures var step := Event(events[i].kind, events[i].json, events[i].failing);
            ServerInv(Next(list, step)) &&
            AfterSteps(list, Broadcasts(events[i..])) == AfterSteps(Next(list, step), Broadcasts(events[i + 1..]))
  {
    NextKeeps(list, Event(events[i].kind, events[i].json, events[i].failing));
    assert Broadcasts(events[i..])[1..] == Broadcasts(events[i + 1..]);
  }

  lemma {:induction false} AfterAppend(list: seq<Conn>, steps: seq<ServerStep>, last: ServerStep)
    requires ServerInv(list)
    ensures AfterSteps(list, steps + [last]) == Next(AfterSteps(list, steps), last)
    decreases |steps|
  {
    if steps == [] {
      assert [] + [last] == [last];
      OneStep(list, last);
    } else {
      NextKeeps(list, steps[0]);
      assert (steps + [last])[1..] == steps[1..] + [last];
      AfterAppend(Next(list, steps[0]), steps[1..], last);
    }
  }

  /** COMMAND, what the compositor publishes meanwhile, and then the reply. */
  lemma CommandEnds(list: seq<Conn>, fd: nat, command: Frame, a: Answers, published: seq<Conn>, after: seq<Conn>)
    requires command.kind == COMMAND && ServerInv(list)
    requires published == AfterSteps(list, Broadcasts(a.events))
    requires after == Next(published, Reply(fd, command.kind, a.reply, a.granted))
    ensures after == AfterSteps(list, CommandSteps(list, fd, command, a))
  {
    AfterAppend(list, Broadcasts(a.events), Reply(fd, command.kind, a.reply, a.granted));
  }

  /** Two steps, and a third one if there is one, one after another. */
  lemma StepByStep(list: seq<Conn>, steps: seq<ServerStep>,
                   first: ServerStep, second: ServerStep, third: Option<ServerStep>,
                   changed: seq<Conn>, answered: seq<Conn>, after: seq<Conn>)
    requires ServerInv(list) && ServerInv(changed) && ServerInv(answered)
    requires steps == [first, second] + if third.Some? then [third.value] else []
    requires changed == Next(list, first) && answered == Next(changed, second)
    requires after == if third.Some? then Next(answered, third.value) else answered
    ensures after == AfterSteps(list, steps)
  {
    if third.Some? {
      ThreeSteps(list, first, second, third.value);
      assert steps == [first, second, third.value];
    } else {
      TwoSteps(list, first, second);
      assert steps == [first, second];
    }
  }

  /** SUBSCRIBE, the subscription, the status and the first tick one after the other. */
  lemma SubscribeEnds(list: seq<Conn>, fd: nat, command: Frame, a: Answers, success: bool, tick: bool,
                      changed: seq<Conn>, answered: seq<Conn>, after: seq<Conn>)
    requires command.kind == SUBSCRIBE && a.request.Array? && a.request.items != []
    requires success == AllKnown(a.request.items, SubscribeKind)
    requires success ==> tick == (Tick in Named(a.request.items, SubscribeKind))
    requires ServerInv(list) && ServerInv(changed) && ServerInv(answered)
    requires changed == Next(list, Member(fd, Subscribes(a.request.items)))
    requires answered == Next(changed, Status(fd, command.kind, success, a.granted))
    requires after == if success && tick
                      then Next(answered, Reply(fd, FrameKind(Tick), a.firstTick, a.granted)) else answered
    ensures after == AfterSteps(list, CommandSteps(list, fd, command, a))
  {
    SubscribeCommand(list, fd, command, a, success, tick);
    StepByStep(list, CommandSteps(list, fd, command, a),
               Member(fd, Subscribes(a.request.items)), Status(fd, command.kind, success, a.granted),
               if success && tick then Some(Reply(fd, FrameKind(Tick), a.firstTick, a.granted)) else None,
               changed, answered, after);
  }

  lemma UnsubscribeEnds(list: seq<Conn>, fd: nat, command: Frame, a: Answers, success: bool,
                        changed: seq<Conn>, after: seq<Conn>)
    requires command.kind == UNSUBSCRIBE && a.request.Array? && a.request.items != []
    requires success == AllKnown(a.request.items, EventToType)
    requires ServerInv(list) && ServerInv(changed) && ServerInv(after)
    requires changed == Next(list, Member(fd, Unsubscribes(a.request.items)))
    requires after == Next(changed, Status(fd, command.kind, success, a.granted))
    ensures after == AfterSteps(list, CommandSteps(list, fd, command, a))
  {
    UnsubscribeCommand(list, fd, command, a, success);
    StepByStep(list, CommandSteps(list, fd, command, a),
               Member(fd, Unsubscribes(a.request.items)), Status(fd, command.kind, success, a.granted), None,
               changed, after, after);
  }

  /** A first step and what follows it. */
  lemma FirstStep(list: seq<Conn>, steps: seq<ServerStep>, first: ServerStep, rest: seq<ServerStep>,
                  changed: seq<Conn>, after: seq<Conn>)
    requires ServerInv(list) && ServerInv(changed)
    requires steps == [first] + rest && changed == Next(list, first) && after == AfterSteps(changed, rest)
    ensures after == AfterSteps(list, steps)
  {
    OneStep(list, first);
    AfterConcat(list, first, rest);
  }

  lemma ServeSteps(list: seq<Conn>, fd: nat, available: nat, fault: Fault, a: Answers,
                   command: Option<Frame>, readOut: seq<Conn>)
    requires ServerInv(list) && CommandOf(list, fd, available, fault) == command
    requires readOut == AfterSteps(list, [Member(fd, Readable(available, fault))])
    ensures TurnSteps(list, Serves(fd, available, fault, a)) ==
            [Member(fd, Readable(available, fault))]
            + if command.Some? then CommandSteps(readOut, fd, command.value, a) else []
  {
    match command
    case None =>
    case Some(_) =>
  }

  lemma ServeCommand(list: seq<Conn>, i: nat, available: nat, fault: Fault, a: Answers,
                     command: Option<Frame>, readOut: seq<Conn>)
    requires ServerInv(list) && ServerInv(readOut) && i < |list|
    requires readOut == Next(list, Member(list[i].fd, Readable(available, fault)))
    requires command == Read(list[i].inbound, Min(available, |list[i].inbound.inbox|), fault).command
    ensures TurnSteps(list, Serves(list[i].fd, available, fault, a)) ==
            [Member(list[i].fd, Readable(available, fault))]
            + if command.Some? then CommandSteps(readOut, list[i].fd, command.value, a) else []
  {
    CommandOfMember(list, i, available, fault);
    OneStep(list, Member(list[i].fd, Readable(available, fault)));
    ServeSteps(list, list[i].fd, available, fault, a, command, readOut);
  }

  // ---------- What the client that asked gets ----------

  /** The two texts of send_status, byte by byte. */
  lemma StatusTextsAre()
    ensures StatusText(true) == [0x7b, 0x22, 0x73, 0x75, 0x63, 0x63, 0x65, 0x73, 0x73, 0x22, 0x3a, 0x20,
                                 0x74, 0x72, 0x75, 0x65, 0x7d]
    ensures StatusText(false) == [0x7b, 0x22, 0x73, 0x75, 0x63, 0x63, 0x65, 0x73, 0x73, 0x22, 0x3a, 0x20,
                                  0x66, 0x61, 0x6c, 0x73, 0x65, 0x7d]
  {
  }

  /** No text of less than 2^32 bytes is cut. */
  lemma TextsAreWhole(kind: U32, text: Bytes, event: ServerStep)
    requires |text| < U32_LIMIT && event.Event? && event.json == text
    ensures ReplyFrame(kind, text) == Frame(kind, text)
    ensures EventFrame(event) == Frame(FrameKind(event.kind), text)
  {
    assert text[..|text|] == text;
  }

  /** The events among some that a connection hears. */
  function Heard(mask: Mask, events: seq<Published>): seq<Frame> {
    if events == [] then []
    else
      (if Selects(mask, events[0].kind) then [ReplyFrame(FrameKind(events[0].kind), events[0].json)] else [])
      + Heard(mask, events[1..])
  }

  lemma FollowOne(c: Conn, step: ServerStep)
    requires ConnInv(c) && c.outbound.capacity > 0
    ensures Follow(c, [step]) == match React(c, step) case Kept(d) => Some(d) case Dropped(_) => None
  {
    ReactKeeps(c, step);
    assert [step][1..] == [];
  }

  lemma ReplyIsQueued(c: Conn, kind: U32, text: Bytes, granted: bool)
    ensures Queues(c, Reply(c.fd, kind, text, granted)) == [ReplyFrame(kind, text)]
    ensures c.outbound.capacity > 0 ==>
              React(c, Reply(c.fd, kind, text, granted)).state.subscribed == c.subscribed
  {
  }

  /** A reply that does not end the connection is what is queued next, and nothing else. */
  lemma ReplyQueues(c: Conn, kind: U32, text: Bytes, granted: bool)
    requires ConnInv(c) && c.outbound.capacity > 0
    ensures var d := Follow(c, [Reply(c.fd, kind, text, granted)]);
            d.Some? ==> d.value.outbound.accepted == c.outbound.accepted + [ReplyFrame(kind, text)]
                        && d.value.subscribed == c.subscribed
  {
    var step := Reply(c.fd, kind, text, granted);
    FollowOne(c, step);
    ReplyIsQueued(c, kind, text, granted);
    if React(c, step).Kept? {
      StepQueues(c, step);
      assert Follow(c, [step]) == Some(React(c, step).state);
    }
  }

  lemma EventQueues(c: Conn, e: Published)
    requires ConnInv(c) && c.outbound.capacity > 0
    ensures var step := Event(e.kind, e.json, e.failing);
            && (React(c, step).Kept? ==>
                  && React(c, step).state.subscribed == c.subscribed
                  && React(c, step).state.outbound.accepted == c.outbound.accepted + Heard(c.subscribed, [e]))
  {
    var step := Event(e.kind, e.json, e.failing);
    if React(c, step).Kept? {
      StepQueues(c, step);
      assert [e][1..] == [];
    }
  }

  lemma HeardNext(mask: Mask, events: seq<Published>)
    requires events != []
    ensures Heard(mask, events) == Heard(mask, [events[0]]) + Heard(mask, events[1..])
  {
    assert [events[0]][1..] == [];
  }

  lemma BroadcastsFollow(c: Conn, events: seq<Published>)
    requires ConnInv(c) && c.outbound.capacity > 0 && events != []
    ensures var r := React(c, Event(events[0].kind, events[0].json, events[0].failing));
            && (r.Kept? ==> ConnInv(r.state) && r.state.outbound.capacity > 0)
            && Follow(c, Broadcasts(events)) == if r.Kept? then Follow(r.state, Broadcasts(events[1..])) else None
  {
    ReactKeeps(c, Event(events[0].kind, events[0].json, events[0].failing));
    assert Broadcasts(events)[1..] == Broadcasts(events[1..]);
  }

  lemma {:induction false} BroadcastsQueue(c: Conn, events: seq<Published>)
    requires ConnInv(c) && c.outbound.capacity > 0
    ensures var d := Follow(c, Broadcasts(events));
            d.Some? ==> d.value.subscribed == c.subscribed
                        && d.value.outbound.accepted == c.outbound.accepted + Heard(c.subscribed, events)
    decreases |events|
  {
    if events != [] {
      var r := React(c, Event(events[0].kind, events[0].json, events[0].failing));
      EventQueues(c, events[0]);
      BroadcastsFollow(c, events);
      if r.Kept? {
        BroadcastsQueue(r.state, events[1..]);
        HeardNext(c.subscribed, events);
        Concatenation(c.outbound.accepted, Heard(c.subscribed, [events[0]]), Heard(c.subscribed, events[1..]));
      }
    }
  }

  /** The client that asked stays, and what was queued for it meanwhile. */
  predicate Gets(c: Conn, d: Option<Conn>, frames: seq<Frame>) {
    d.Some? ==> d.value.outbound.accepted == c.outbound.accepted + frames
  }

  /** COMMAND: the events it listens to, then the reply. */
  lemma CommandGets(list: seq<Conn>, c: Conn, command: Frame, a: Answers)
    requires command.kind == 0 && ConnInv(c) && c.outbound.capacity > 0
    ensures Gets(c, Follow(c, CommandSteps(list, c.fd, command, a)),
                 Heard(c.subscribed, a.events) + [ReplyFrame(0, a.reply)])
  {
    EventsThenReply(c, a.events, command.kind, a.reply, a.granted);
  }

  lemma EventsThenReply(c: Conn, events: seq<Published>, kind: U32, text: Bytes, granted: bool)
    requires ConnInv(c) && c.outbound.capacity > 0
    ensures Gets(c, Follow(c, Broadcasts(events) + [Reply(c.fd, kind, text, granted)]),
                 Heard(c.subscribed, events) + [ReplyFrame(kind, text)])
  {
    FollowConcat(c, Broadcasts(events), [Reply(c.fd, kind, text, granted)]);
    BroadcastsQueue(c, events);
    var d := Follow(c, Broadcasts(events));
    if d.Some? {
      ReplyQueues(d.value, kind, text, granted);
    }
  }

  lemma TickHeard(mask: Mask, e: Published, listeners: bool)
    requires e.kind == Tick && (Selects(mask, Tick) ==> listeners)
    ensures Heard(mask, if listeners then [e] else []) ==
            if Tick in KindsOf(mask) then [ReplyFrame(0x8000_0007, e.json)] else []
  {
    assert [e][1..] == [];
  }

  /** SEND_TICK: the tick if it listens to ticks, then the status. */
  lemma TickGets(list: seq<Conn>, c: Conn, command: Frame, a: Answers)
    requires command.kind == 10 && ConnInv(c) && c.outbound.capacity > 0 && c in list
    ensures Gets(c, Follow(c, CommandSteps(list, c.fd, command, a)),
                 (if Tick in KindsOf(c.subscribed) then [ReplyFrame(0x8000_0007, a.tick)] else [])
                 + [ReplyFrame(10, StatusText(true))])
  {
    var tick := Published(Tick, a.tick, a.failing);
    var events := if HasListeners(list, Tick) then [tick] else [];
    TickCommand(list, c.fd, command, a);
    TickHeard(c.subscribed, tick, HasListeners(list, Tick));
    assert CommandSteps(list, c.fd, command, a)
        == Broadcasts(events) + [Reply(c.fd, command.kind, StatusText(true), a.granted)];
    EventsThenReply(c, events, command.kind, StatusText(true), a.granted);
  }

  lemma ChangeThenReply(c: Conn, change: Step, kind: U32, text: Bytes, granted: bool)
    requires ConnInv(c) && c.outbound.capacity > 0 && (change.Subscribes? || change.Unsubscribes?)
    ensures var d := Follow(c, [Member(c.fd, change), Reply(c.fd, kind, text, granted)]);
            d.Some? ==> d.value.outbound.accepted == c.outbound.accepted + [ReplyFrame(kind, text)]
                        && d.value.subscribed == Act(c, change).state.subscribed
  {
    var first, reply := Member(c.fd, change), Reply(c.fd, kind, text, granted);
    ReactKeeps(c, first);
    assert [first, reply][1..] == [reply];
    ReplyQueues(React(c, first).state, kind, text, granted);
  }

  /** A further reply if there is one. */
  lemma MaybeReply(c: Conn, reply: bool, kind: U32, text: Bytes, granted: bool)
    requires ConnInv(c) && c.outbound.capacity > 0
    ensures var d := Follow(c, if reply then [Reply(c.fd, kind, text, granted)] else []);
            d.Some? ==>
              && d.value.outbound.accepted == c.outbound.accepted + (if reply then [ReplyFrame(kind, text)] else [])
              && d.value.subscribed == c.subscribed
  {
    if reply { ReplyQueues(c, kind, text, granted); }
  }

  lemma ChangeThenReplies(c: Conn, change: Step, kind: U32, text: Bytes, more: bool, next: U32, nextText: Bytes,
                          granted: bool)
    requires ConnInv(c) && c.outbound.capacity > 0 && (change.Subscribes? || change.Unsubscribes?)
    ensures var steps := [Member(c.fd, change), Reply(c.fd, kind, text, granted)]
                         + if more then [Reply(c.fd, next, nextText, granted)] else [];
            var d := Follow(c, steps);
            && Gets(c, d, [ReplyFrame(kind, text)] + if more then [ReplyFrame(next, nextText)] else [])
            && (d.Some? ==> d.value.subscribed == Act(c, change).state.subscribed)
  {
    var steps := [Member(c.fd, change), Reply(c.fd, kind, text, granted)];
    FollowConcat(c, steps, if more then [Reply(c.fd, next, nextText, granted)] else []);
    ChangeThenReply(c, change, kind, text, granted);
    if Follow(c, steps).Some? {
      MaybeReply(Follow(c, steps).value, more, next, nextText, granted);
      Concatenation(c.outbound.accepted, [ReplyFrame(kind, text)], if more then [ReplyFrame(next, nextText)] else []);
    }
  }

  lemma SubscribeRuns(list: seq<Conn>, c: Conn, command: Frame, a: Answers, success: bool, tick: bool)
    requires command.kind == SUBSCRIBE && ConnInv(c) && c.outbound.capacity > 0
    requires a.request.Array? && a.request.items != []
    requires success == AllKnown(a.request.items, SubscribeKind)
    requires success ==> tick == (Tick in Named(a.request.items, SubscribeKind))
    ensures var d := Follow(c, CommandSteps(list, c.fd, command, a));
            && Gets(c, d, [ReplyFrame(SUBSCRIBE, StatusText(success))]
                          + if success && tick then [ReplyFrame(FrameKind(Tick), a.firstTick)] else [])
            && (d.Some? ==> d.value.subscribed == Subscribed(c.subscribed, a.request.items))
  {
    SubscribeCommand(list, c.fd, command, a, success, tick);
    ChangeThenReplies(c, Subscribes(a.request.items), SUBSCRIBE, StatusText(success), success && tick,
                      FrameKind(Tick), a.firstTick, a.granted);
  }

  lemma FirstTickAnswer(c: Conn, d: Option<Conn>, known: bool, tick: bool, text: Bytes)
    requires Gets(c, d, [ReplyFrame(SUBSCRIBE, StatusText(known))]
                        + if known && tick then [ReplyFrame(FrameKind(Tick), text)] else [])
    ensures Gets(c, d, [ReplyFrame(2, StatusText(known))]
                       + if known && tick then [ReplyFrame(0x8000_0007, text)] else [])
  {
  }

  /** SUBSCRIBE: whether every string was a name; and if tick was among them the first tick
      behind it. */
  lemma SubscribeGets(list: seq<Conn>, c: Conn, command: Frame, a: Answers, d: Option<Conn>, known: bool, tick: bool)
    requires command.kind == 2 && ConnInv(c) && c.outbound.capacity > 0
    requires a.request.Array? && a.request.items != []
    requires d == Follow(c, CommandSteps(list, c.fd, command, a))
    requires known == AllNames(a.request.items, SUBSCRIBABLE) && tick == (Name(NameOf(Tick)) in a.request.items)
    ensures Gets(c, d, [ReplyFrame(2, StatusText(known))]
                       + if known && tick then [ReplyFrame(0x8000_0007, a.firstTick)] else [])
  {
    SubscribeReads(a.request.items, known, tick);
    SubscribeRuns(list, c, command, a, known, tick);
    FirstTickAnswer(c, d, known, tick, a.firstTick);
  }

  /** The kinds that are listened to behind a SUBSCRIBE. */
  lemma SubscribeLeaves(list: seq<Conn>, c: Conn, command: Frame, a: Answers, d: Option<Conn>)
    requires command.kind == 2 && ConnInv(c) && c.outbound.capacity > 0
    requires a.request.Array? && a.request.items != []
    requires d == Follow(c, CommandSteps(list, c.fd, command, a)) && d.Some?
    ensures KindsOf(d.value.subscribed) == KindsAfterSubscribe(KindsOf(c.subscribed), a.request.items)
  {
    var items := a.request.items;
    SubscribeRuns(list, c, command, a, AllKnown(items, SubscribeKind), Tick in Named(items, SubscribeKind));
    SubscribeByName(c.subscribed, items);
  }

  lemma UnsubscribeRuns(list: seq<Conn>, c: Conn, command: Frame, a: Answers, success: bool)
    requires command.kind == UNSUBSCRIBE && ConnInv(c) && c.outbound.capacity > 0
    requires a.request.Array? && a.request.items != []
    requires success == AllKnown(a.request.items, EventToType)
    ensures var d := Follow(c, CommandSteps(list, c.fd, command, a));
            && Gets(c, d, [ReplyFrame(UNSUBSCRIBE, StatusText(success))])
            && (d.Some? ==> d.value.subscribed == Unsubscribed(c.subscribed, a.request.items))
  {
    UnsubscribeCommand(list, c.fd, command, a, success);
    ChangeThenReply(c, Unsubscribes(a.request.items), UNSUBSCRIBE, StatusText(success), a.granted);
  }

  /** UNSUBSCRIBE: whether every string was a name, and the kinds that are left. */
  lemma UnsubscribeGets(list: seq<Conn>, c: Conn, command: Frame, a: Answers, d: Option<Conn>, known: bool)
    requires command.kind == 200 && ConnInv(c) && c.outbound.capacity > 0
    requires a.request.Array? && a.request.items != []
    requires d == Follow(c, CommandSteps(list, c.fd, command, a)) && known == AllNames(a.request.items, RELEASABLE)
    ensures Gets(c, d, [ReplyFrame(200, StatusText(known))])
    ensures d.Some? ==>
              KindsOf(d.value.subscribed) == KindsAfterUnsubscribe(KindsOf(c.subscribed), a.request.items)
  {
    AllKnownIsNames(a.request.items);
    UnsubscribeRuns(list, c, command, a, known);
    UnsubscribeByName(c.subscribed, a.request.items);
  }

  /** The requests for information get their text, and the ones that the server does not
      know, or that are no non-empty array where one is needed, get a failure. Nothing
      else happens. */
  lemma OthersGet(list: seq<Conn>, c: Conn, command: Frame, a: Answers)
    requires ConnInv(c) && c.outbound.capacity > 0
    requires command.kind !in {0, 10} && (command.kind in {2, 200} ==> a.request.NotAnArray? || a.request.items == [])
    ensures var d := Follow(c, CommandSteps(list, c.fd, command, a));
            && Gets(c, d, [ReplyFrame(command.kind, if command.kind in {1, 3, 4, 7, 9, 100, 101}
                                                    then a.reply else StatusText(false))])
            && (d.Some? ==> d.value.subscribed == c.subscribed)
  {
    ReplyQueues(c, command.kind, ReplyText(command.kind, a), a.granted);
  }

  // ---------- Turns, as the methods of Server take them ----------

  /** A turn that is a single step. */
  lemma SimpleTurn(list: seq<Conn>, turn: Turn, step: ServerStep)
    requires ServerInv(list) && TurnSteps(list, turn) == [step]
    ensures AfterSteps(list, TurnSteps(list, turn)) == Next(list, step) && ServerInv(Next(list, step))
  {
    OneStep(list, step);
    NextKeeps(list, step);
  }

  /** Serving a descriptor that no connection has is a single step. */
  lemma TurnOfAbsent(list: seq<Conn>, fd: nat, available: nat, fault: Fault, a: Answers)
    requires ServerInv(list) && forall i :: 0 <= i < |list| ==> list[i].fd != fd
    ensures TurnSteps(list, Serves(fd, available, fault, a)) == [Member(fd, Readable(available, fault))]
  {
    CommandOfAbsent(list, fd, available, fault);
  }

  /** It changes nothing. */
  lemma TurnOfNobody(list: seq<Conn>, fd: nat, turn: Turn, step: Step)
    requires ServerInv(list) && forall i :: 0 <= i < |list| ==> list[i].fd != fd
    requires TurnSteps(list, turn) == [Member(fd, step)]
    ensures AfterSteps(list, TurnSteps(list, turn)) == list
  {
    SimpleTurn(list, turn, Member(fd, step));
    NobodyElse(list, fd, step);
  }

  /** The system gives no descriptor that is in use; if it did, the list would stay. */
  lemma StepOfUsedFd(list: seq<Conn>, i: nat)
    requires ServerInv(list) && i < |list|
    ensures Next(list, Connects(list[i].fd)) == list
  {
    assert list[i].fd in Fds(list);
    UnchangedByNobody(list, Connects(list[i].fd));
  }

  // ---------- Talks over whole runs ----------

  /** What a turn adds to the talk with fd. */
  ghost function Continued(talk: seq<Exchange>, list: seq<Conn>, turn: Turn, fd: nat): seq<Exchange> {
    match turn
    case Accepts(f) => if f == fd && fd !in Fds(list) then [] else talk
    case Serves(f, available, fault, answers) =>
      if f != fd then talk
      else
        var command := CommandOf(list, fd, available, fault);
        if command.Some? && command.value.kind < EVENT_BIT then talk + [Exchange(command.value, answers)] else talk
    case _ => talk
  }

  /** The requests that were dispatched for the connection that has fd after a run, in
      order, with what the server was answered while it handled them. */
  ghost function Talk(turns: seq<Turn>, fd: nat): seq<Exchange> {
    if turns == [] then []
    else
      var before := turns[..|turns| - 1];
      Continued(Talk(before, fd), RunTurns(before), turns[|turns| - 1], fd)
  }

  predicate TalkedSo(list: seq<Conn>, fd: nat, talk: seq<Exchange>) {
    AllBalanced(list, fd, Asked(talk), Told(talk))
  }

  lemma TalkAppend(talk: seq<Exchange>, e: Exchange)
    ensures Asked(talk + [e]) == Asked(talk) + [e.request]
    ensures Told(talk + [e]) == Told(talk) + [ReplyTo(e.request, e.answers)]
  {
  }

  /** A command of fd and its reply continue the talk. */
  lemma ServesContinues(list: seq<Conn>, fd: nat, available: nat, fault: Fault, a: Answers, talk: seq<Exchange>)
    requires ServerInv(list) && TalkedSo(list, fd, talk)
    ensures var turn := Serves(fd, available, fault, a);
            TalkedSo(AfterSteps(list, TurnSteps(list, turn)), fd, Continued(talk, list, turn, fd))
  {
    var readable := Member(fd, Readable(available, fault));
    OneStep(list, readable);
    ReadableAsks(list, fd, available, fault, Asked(talk), Told(talk));
    match CommandOf(list, fd, available, fault) {
      case None =>
        assert Asked(talk) + [] == Asked(talk);
      case Some(command) =>
        var owing := AfterSteps(list, [readable]);
        var steps := CommandSteps(owing, fd, command, a);
        var r := OneReply(owing, fd, command, a);
        var asked := Asked(talk) + IfRequest(command);
        RunTells(owing, steps, r, fd, command.kind, ReplyText(command.kind, a), a.granted, asked, Told(talk));
        AfterConcat(list, readable, steps);
        TalkAppend(talk, Exchange(command, a));
        assert command.kind >= EVENT_BIT ==> asked == Asked(talk) && Told(talk) + [] == Told(talk);
    }
  }

  /** A command of another client leaves the talk as it is. */
  lemma OtherServes(list: seq<Conn>, f: nat, available: nat, fault: Fault, a: Answers, fd: nat, talk: seq<Exchange>)
    requires ServerInv(list) && TalkedSo(list, fd, talk) && f != fd
    ensures TalkedSo(AfterSteps(list, TurnSteps(list, Serves(f, available, fault, a))), fd, talk)
  {
    var readable := Member(f, Readable(available, fault));
    var steps := TurnSteps(list, Serves(f, available, fault, a));
    if CommandOf(list, f, available, fault).Some? {
      OthersAreNeutral(AfterSteps(list, [readable]), f, CommandOf(list, f, available, fault).value, a, fd);
    }
    NeutralRunKeepsBalance(list, steps, fd, Asked(talk), Told(talk));
  }

  lemma TurnContinues(list: seq<Conn>, turn: Turn, fd: nat, talk: seq<Exchange>)
    requires ServerInv(list) && TalkedSo(list, fd, talk)
    ensures TalkedSo(AfterSteps(list, TurnSteps(list, turn)), fd, Continued(talk, list, turn, fd))
  {
    match turn {
      case Accepts(f) =>
        OneStep(list, Connects(f));
        ConnectsStartsTalk(list, f, fd, Asked(talk), Told(talk));
      case Serves(f, available, fault, answers) =>
        if f == fd {
          ServesContinues(list, fd, available, fault, answers, talk);
        } else {
          OtherServes(list, f, available, fault, answers, fd, talk);
        }
      case Receives(_, _) => NeutralRunKeepsBalance(list, TurnSteps(list, turn), fd, Asked(talk), Told(talk));
      case Writes(_, _) => NeutralRunKeepsBalance(list, TurnSteps(list, turn), fd, Asked(talk), Told(talk));
      case Publishes(_, _, _) => NeutralRunKeepsBalance(list, TurnSteps(list, turn), fd, Asked(talk), Told(talk));
    }
  }

  lemma {:induction false} RunsTalk(turns: seq<Turn>, fd: nat)
    ensures TalkedSo(RunTurns(turns), fd, Talk(turns, fd))
  {
    if turns != [] {
      var before := turns[..|turns| - 1];
      RunsTalk(before, fd);
      TurnContinues(RunTurns(before), turns[|turns| - 1], fd, Talk(before, fd));
    }
  }

  /** What the server was answered for each of them is in a turn of that client. */
  lemma {:induction false} AnswersAreOfTheRun(turns: seq<Turn>, fd: nat, i: nat)
    requires i < |Talk(turns, fd)|
    ensures exists j :: 0 <= j < |turns| && turns[j].Serves? && turns[j].fd == fd
                        && turns[j].answers == Talk(turns, fd)[i].answers
  {
    var n := |turns| - 1;
    var talk := Talk(turns[..n], fd);
    if i < |talk| && Talk(turns, fd)[i] == talk[i] {
      AnswersAreOfTheRun(turns[..n], fd, i);
      var j :| 0 <= j < |turns[..n]| && turns[..n][j].Serves? && turns[..n][j].fd == fd
               && turns[..n][j].answers == talk[i].answers;
      assert turns[j] == turns[..n][j];
    } else {
      assert turns[n].Serves? && turns[n].fd == fd && turns[n].answers == Talk(turns, fd)[i].answers;
    }
  }

  /** In every run, whatever chunks arrive, however the writes are cut and however many
      events are published in between, the i-th reply that a connected peer decodes is
      the reply to the i-th request it sent, with the text for that request; none is
      missing once the queue and the input are drained. */
  lemma RepliesAnswerRequestsInOrder(turns: seq<Turn>, c: Conn)
    requires c in RunTurns(turns)
    ensures Asked(Talk(turns, c.fd)) <= Requests(Frames(c.inbound.arrived))
    ensures Requests(Responses(c.outbound.wire)) <= Told(Talk(turns, c.fd))
    ensures Idle(c.inbound) ==> Asked(Talk(turns, c.fd)) == Requests(Frames(c.inbound.arrived))
    ensures c.outbound.queue == [] ==> Requests(Responses(c.outbound.wire)) == Told(Talk(turns, c.fd))
    ensures c.outbound.queue == [] && Idle(c.inbound) ==>
              |Requests(Responses(c.outbound.wire))| == |Requests(Frames(c.inbound.arrived))|
  {
    var list := RunTurns(turns);
    var talk := Talk(turns, c.fd);
    RunsTalk(turns, c.fd);
    BalancedMember(list, c, c.fd, Asked(talk), Told(talk));
    MembersAreGood(list, c);
    PeerReceivesWhatWasAccepted(c.outbound);
    RequestsPrefix(Responses(c.outbound.wire), c.outbound.accepted);
    LiveOrCutShort(c.inbound, c.outbound);
    DispatchedIsPrefix(Kept(c.inbound));
    RequestsPrefix(c.inbound.dispatched, Frames(c.inbound.arrived));
    if Idle(c.inbound) {
      IdleHasDispatchedAll(c.inbound);
    }
  }

  /** In particular the types agree, one by one. */
  lemma ReplyTypesAgree(turns: seq<Turn>, c: Conn, i: nat)
    requires c in RunTurns(turns) && i < |Requests(Responses(c.outbound.wire))|
    ensures i < |Requests(Frames(c.inbound.arrived))|
    ensures Requests(Responses(c.outbound.wire))[i].kind == Requests(Frames(c.inbound.arrived))[i].kind
  {
    RepliesAnswerRequestsInOrder(turns, c);
    var talk := Talk(turns, c.fd);
    assert Told(talk)[i] == ReplyTo(talk[i].request, talk[i].answers) && Asked(talk)[i] == talk[i].request;
  }
}
