/** execute_command: runs a list of commands. Handlers and the compositor are an
    environment whose answers may depend on every call made so far. */
module Commands {
  import opened Helpers
  import opened Text
  import A = ArgSep
  import S = SplitArgs
  import L = CommandLine
  import C = Criteria

  /** A node of the tree of views, as criteria select it. */
  type Node = nat

  datatype Status = Success | Failure(code: nat)

  /** A handler invocation: the argument vector and the node in the handler's context. */
  datatype Call = Call(argv: seq<string>, node: Option<Node>, overridden: bool)

  /** What the handlers and the compositor are, and answer after some calls. */
  datatype World = World(
    handlers: set<string>,                     // the names in the map of core handlers
    status: seq<Call> -> Status,               // of the last one of these calls
    select: (seq<Call>, C.Fields) -> seq<Node>, // get_containers
    activeView: seq<Call> -> Option<Node>,
    accept: seq<Call> -> C.TokenParser)         // parse_token

  ghost predicate Sensible(w: World) {
    forall calls :: C.RejectsEmptyName(w.accept(calls))
  }

  /** An element of the result list. */
  datatype Entry =
    | Handled(status: Status)
    | AllHandled
    | NoMatchingNode
    | BadCriteria(error: C.Error)
    | UnknownCommand(name: string)

  /** What the commands apply to: the active view, or the nodes that criteria selected. */
  datatype Scope = ActiveView | Selected(nodes: seq<Node>)

  /** The record of one round of the loop, for stating what runs do: the text, the
      delimiter and the handler context it started with, the scope it used, the command it
      cut out and what was left behind it, the calls before and in it. */
  datatype Round = Round(
    text: string, delim: char, node: Option<Node>, overridden: bool, scope: Scope,
    command: string, matched: char, rest: Option<string>, before: seq<Call>, made: seq<Call>)

  /** The variables of the loop; node and overridden are the handler context's. */
  datatype State = State(
    delim: char, scope: Scope, node: Option<Node>, overridden: bool,
    calls: seq<Call>, results: seq<Entry>, rounds: seq<Round>)

  const INITIAL := State(';', ActiveView, None, false, [], [], [])

  /** What a round leaves: the loop goes on with the rest of the list, or is over. */
  datatype Progress = GoOn(state: State, rest: string) | Over(state: State)

  /** A command and where it was cut out of the list. */
  datatype Piece = Piece(command: string, matched: char, rest: Option<string>)

  function FirstPiece(text: string): (p: Piece)
    ensures p.rest.Some? ==> |p.rest.value| < |text|
    ensures p.command != "" ==> !IsSpace(p.command[0])
  {
    var cut := A.Separate(text, L.DELIMITERS);
    A.CutIsInside(text, L.DELIMITERS);
    var command := S.Trim(A.TokenText(text, cut));
    match cut.end
    case None => Piece(command, NUL, None)
    case Some(end) => Piece(command, text[end], Some(text[end + 1..]))
  }

  /** The criteria in front of a command, if the previous one ended with a semicolon. */
  datatype Opening = Opened(scope: Scope, text: string) | Refused(error: C.Error)

  function Open(text: string, s: State, w: World): (o: Opening)
    requires C.RejectsEmptyName(w.accept(s.calls))
    ensures o.Opened? ==> |o.text| <= |text|
  {
    var t := S.Trim(text);
    if s.delim != ';' then Opened(s.scope, t)
    else if t == "" || t[0] != '[' then Opened(ActiveView, t)
    else match C.Parse(t, w.accept(s.calls))
      case Failed(e) => Refused(e)
      case Parsed(f, n) => Opened(Selected(w.select(s.calls, f)), S.Trim(t[n..]))
  }

  /** The state after one handler call. */
  function AfterCall(s: State, argv: seq<string>, node: Option<Node>, overridden: bool): State {
    s.(node := node, overridden := overridden, calls := s.calls + [Call(argv, node, overridden)])
  }

  function AddResult(s: State, e: Entry): State {
    s.(results := s.results + [e])
  }

  /** The loop over the selected nodes: the first failure ends the command list. */
  function ForEach(s: State, argv: seq<string>, nodes: seq<Node>, w: World): Progress
    decreases |nodes|
  {
    if nodes == [] then GoOn(AddResult(s, AllHandled), "")
    else
      var t := AfterCall(s, argv, Some(nodes[0]), true);
      var status := w.status(t.calls);
      if status.Success? then ForEach(t, argv, nodes[1..], w) else Over(AddResult(t, Handled(status)))
  }

  /** One command with its arguments. */
  function RunCommand(s: State, argv: seq<string>, w: World): Progress
    requires argv != []
  {
    if argv[0] !in w.handlers then Over(AddResult(s, UnknownCommand(argv[0])))
    else match s.scope
      case ActiveView =>
        var view := w.activeView(s.calls);
        var t := if view.Some? then AfterCall(s, argv, view, false) else AfterCall(s, argv, s.node, s.overridden);
        var status := w.status(t.calls);
        var u := AddResult(t, Handled(status));
        if status.Success? then GoOn(u, "") else Over(u)
      case Selected(nodes) =>
        if nodes == [] then GoOn(AddResult(s, NoMatchingNode), "") else ForEach(s, argv, nodes, w)
  }

  /** The record of a round that started with s. */
  function Record(s: State, text: string, scope: Scope, piece: Piece, after: seq<Call>): Round {
    Round(text, s.delim, s.node, s.overridden, scope, piece.command, piece.matched, piece.rest, s.calls,
          if s.calls <= after then after[|s.calls|..] else [])
  }

  function Recorded(s: State, text: string, scope: Scope, piece: Piece, t: State): State {
    t.(rounds := t.rounds + [Record(s, text, scope, piece, t.calls)])
  }

  /** The command of a round, unless it is empty. */
  function Attempt(s: State, command: string, w: World): Progress
    requires command != "" ==> !IsSpace(command[0])
  {
    if command == "" then GoOn(s, "")
    else (L.CommandHasAWord(command); RunCommand(s, L.Argv(command), w))
  }

  /** One round of the do-while loop. */
  function DoRound(text: string, s: State, w: World): (p: Progress)
    requires C.RejectsEmptyName(w.accept(s.calls))
    ensures p.GoOn? ==> |p.rest| < |text|
  {
    match Open(text, s, w)
    case Refused(e) => Over(AddResult(s.(scope := ActiveView), BadCriteria(e)))
    case Opened(scope, list) =>
      var piece := FirstPiece(list);
      var done := Attempt(s.(scope := scope, delim := piece.matched), piece.command, w);
      var u := Recorded(s, text, scope, piece, done.state);
      if done.Over? || piece.rest.None? then Over(u) else GoOn(u, piece.rest.value)
  }

  /** The whole loop. */
  function Run(text: string, s: State, w: World): State
    requires Sensible(w)
    decreases |text|
  {
    var p := DoRound(text, s, w);
    match p
    case Over(t) => t
    case GoOn(t, rest) => Run(rest, t, w)
  }

  // ---------- What every run keeps ----------

  predicate Fine(e: Entry) {
    e == Handled(Success) || e == AllHandled || e == NoMatchingNode
  }

  predicate AllFine(results: seq<Entry>) {
    forall i :: 0 <= i < |results| ==> Fine(results[i])
  }

  /** Each of the calls, when it was the last one made, returned success. */
  predicate AllSucceeded(calls: seq<Call>, w: World) {
    forall i :: 0 < i <= |calls| ==> w.status(calls[..i]).Success?
  }

  /** The calls of a round go to the nodes of its scope, one by one from the first. */
  predicate Targets(r: Round) {
    match r.scope
    case ActiveView => |r.made| <= 1
    case Selected(nodes) =>
      |r.made| <= |nodes| &&
      forall j :: 0 <= j < |r.made| ==> r.made[j].node == Some(nodes[j]) && r.made[j].overridden
  }

  /** A round's scope: behind a semicolon it is what the text at that place says, behind
      anything else it is the scope of the round before. */
  predicate Scoped(r: Round, previous: Scope, w: World)
    requires Sensible(w)
  {
    if r.delim == ';' then
      var t := S.Trim(r.text);
      if t == "" || t[0] != '[' then r.scope == ActiveView
      else C.Parse(t, w.accept(r.before)).Parsed? &&
           r.scope == Selected(w.select(r.before, C.Parse(t, w.accept(r.before)).fields))
    else r.scope == previous
  }

  predicate RoundOk(rounds: seq<Round>, i: nat, w: World)
    requires Sensible(w) && i < |rounds|
  {
    Targets(rounds[i]) && Scoped(rounds[i], if i == 0 then ActiveView else rounds[i - 1].scope, w)
  }

  predicate RoundsOk(rounds: seq<Round>, w: World)
    requires Sensible(w)
  {
    forall i :: 0 <= i < |rounds| ==> RoundOk(rounds, i, w)
  }

  /** The rounds account for all calls, in order. */
  predicate Accounted(rounds: seq<Round>, calls: seq<Call>) {
    if rounds == [] then calls == []
    else
      var last := rounds[|rounds| - 1];
      calls == last.before + last.made && Accounted(rounds[..|rounds| - 1], last.before)
  }

  predicate ScopeIsLast(s: State) {
    s.scope == if s.rounds == [] then ActiveView else s.rounds[|s.rounds| - 1].scope
  }

  /** What holds between two rounds. */
  predicate LoopInv(s: State, w: World)
    requires Sensible(w)
  {
    && AllFine(s.results) && AllSucceeded(s.calls, w)
    && RoundsOk(s.rounds, w) && Accounted(s.rounds, s.calls) && ScopeIsLast(s)
  }

  /** What holds in the end: only the last result, and only the last call, may be a
      failure. */
  predicate FinalInv(s: State, w: World)
    requires Sensible(w)
  {
    && (s.results != [] ==> AllFine(s.results[..|s.results| - 1]))
    && (s.calls != [] ==> AllSucceeded(s.calls[..|s.calls| - 1], w))
    && (s.calls != [] && !w.status(s.calls).Success? ==>
          s.results != [] && s.results[|s.results| - 1] == Handled(w.status(s.calls)))
    && RoundsOk(s.rounds, w) && Accounted(s.rounds, s.calls)
  }

  lemma AppendFine(results: seq<Entry>, e: Entry)
    requires AllFine(results)
    ensures AllFine((results + [e])[..|results|]) && (Fine(e) ==> AllFine(results + [e]))
  {
    assert (results + [e])[..|results|] == results;
  }

  lemma AppendSucceeded(calls: seq<Call>, c: Call, w: World)
    requires AllSucceeded(calls, w)
    ensures AllSucceeded((calls + [c])[..|calls|], w)
    ensures w.status(calls + [c]).Success? ==> AllSucceeded(calls + [c], w)
  {
    var more := calls + [c];
    assert more[..|calls|] == calls && more[..|more|] == more;
    forall i | 0 < i <= |calls| ensures w.status(more[..i]).Success? {
      assert more[..i] == calls[..i];
    }
  }

  /** What a command may do to the state: add results and calls; the scope, the
      delimiter and the record of the rounds stay. */
  predicate Extends(s: State, t: State) {
    && t.delim == s.delim && t.scope == s.scope && t.rounds == s.rounds
    && s.calls <= t.calls
  }

  predicate Healthy(s: State, w: World) {
    AllFine(s.results) && AllSucceeded(s.calls, w)
  }

  predicate EndsHealthy(s: State, w: World) {
    && (s.results != [] ==> AllFine(s.results[..|s.results| - 1]))
    && (s.calls != [] ==> AllSucceeded(s.calls[..|s.calls| - 1], w))
    && (s.calls != [] && !w.status(s.calls).Success? ==>
          s.results != [] && s.results[|s.results| - 1] == Handled(w.status(s.calls)))
  }

  predicate Sound(p: Progress, w: World) {
    match p
    case GoOn(t, _) => Healthy(t, w)
    case Over(t) => EndsHealthy(t, w)
  }

  lemma HealthyEnds(s: State, w: World)
    requires Healthy(s, w)
    ensures EndsHealthy(s, w)
  {
    if s.calls != [] {
      var before := s.calls[..|s.calls| - 1];
      assert s.calls[..|s.calls|] == s.calls;
      forall i | 0 < i <= |before| ensures w.status(before[..i]).Success? {
        assert before[..i] == s.calls[..i];
      }
    }
  }

  lemma {:induction false} ForEachIsSound(s: State, argv: seq<string>, nodes: seq<Node>, w: World)
    requires Healthy(s, w)
    ensures var p := ForEach(s, argv, nodes, w);
            && Sound(p, w) && Extends(s, p.state)
            && |p.state.calls| <= |s.calls| + |nodes|
            && forall j :: |s.calls| <= j < |p.state.calls| ==>
                 p.state.calls[j] == Call(argv, Some(nodes[j - |s.calls|]), true)
    decreases |nodes|
  {
    if nodes == [] {
      AppendFine(s.results, AllHandled);
    } else {
      var c := Call(argv, Some(nodes[0]), true);
      var t := AfterCall(s, argv, Some(nodes[0]), true);
      AppendSucceeded(s.calls, c, w);
      if w.status(t.calls).Success? {
        ForEachIsSound(t, argv, nodes[1..], w);
        assert t.calls <= ForEach(t, argv, nodes[1..], w).state.calls;
      } else {
        AppendFine(s.results, Handled(w.status(t.calls)));
      }
    }
  }

  /** The calls that a command made fit the scope. */
  predicate CallsFit(scope: Scope, before: seq<Call>, after: seq<Call>) {
    before <= after &&
    match scope
    case ActiveView => |after| <= |before| + 1
    case Selected(nodes) =>
      |after| <= |before| + |nodes| &&
      forall j :: |before| <= j < |after| ==>
        after[j].node == Some(nodes[j - |before|]) && after[j].overridden
  }

  /** The call on the active view. */
  lemma OneCallIsSound(s: State, argv: seq<string>, node: Option<Node>, overridden: bool, w: World)
    requires Healthy(s, w)
    ensures var t := AfterCall(s, argv, node, overridden);
            var status := w.status(t.calls);
            var u := AddResult(t, Handled(status));
            && Sound(if status.Success? then GoOn(u, "") else Over(u), w)
            && Extends(s, u) && |u.calls| == |s.calls| + 1
  {
    var c := Call(argv, node, overridden);
    AppendSucceeded(s.calls, c, w);
    AppendFine(s.results, Handled(w.status(s.calls + [c])));
  }

  lemma RunCommandIsSound(s: State, argv: seq<string>, w: World)
    requires argv != [] && Healthy(s, w)
    ensures var p := RunCommand(s, argv, w);
            Sound(p, w) && Extends(s, p.state) && CallsFit(s.scope, s.calls, p.state.calls)
  {
    if argv[0] !in w.handlers {
      HealthyEnds(s, w);
      AppendFine(s.results, UnknownCommand(argv[0]));
    } else {
      match s.scope {
        case ActiveView =>
          var view := w.activeView(s.calls);
          var node, overridden := if view.Some? then view else s.node, if view.Some? then false else s.overridden;
          OneCallIsSound(s, argv, node, overridden, w);
        case Selected(nodes) =>
          if nodes == [] {
            AppendFine(s.results, NoMatchingNode);
          } else {
            ForEachIsSound(s, argv, nodes, w);
          }
      }
    }
  }

  lemma AppendRound(rounds: seq<Round>, r: Round, w: World)
    requires Sensible(w) && RoundsOk(rounds, w) && Targets(r)
    requires Scoped(r, if rounds == [] then ActiveView else rounds[|rounds| - 1].scope, w)
    ensures RoundsOk(rounds + [r], w)
  {
    var more := rounds + [r];
    forall i | 0 <= i < |more|
      ensures RoundOk(more, i, w)
    {
      if i < |rounds| {
        assert RoundOk(rounds, i, w);
        assert more[i] == rounds[i] && (i > 0 ==> more[i - 1] == rounds[i - 1]);
      }
    }
  }

  lemma FitTargets(s: State, text: string, scope: Scope, piece: Piece, after: seq<Call>)
    requires CallsFit(scope, s.calls, after)
    ensures Targets(Record(s, text, scope, piece, after))
  {
    var made := after[|s.calls|..];
    forall j | 0 <= j < |made| ensures made[j] == after[|s.calls| + j] {
    }
  }

  lemma RecordKeeps(s: State, text: string, scope: Scope, piece: Piece, t: State, w: World)
    requires Sensible(w) && RoundsOk(s.rounds, w) && Accounted(s.rounds, s.calls) && ScopeIsLast(s)
    requires t.rounds == s.rounds && t.scope == scope && CallsFit(scope, s.calls, t.calls)
    requires Scoped(Record(s, text, scope, piece, t.calls), s.scope, w)
    ensures var u := Recorded(s, text, scope, piece, t);
            RoundsOk(u.rounds, w) && Accounted(u.rounds, u.calls) && ScopeIsLast(u)
  {
    var u := Recorded(s, text, scope, piece, t);
    var last := Record(s, text, scope, piece, t.calls);
    assert u.rounds == s.rounds + [last] && u.rounds[..|s.rounds|] == s.rounds;
    assert last.before + last.made == t.calls;
    FitTargets(s, text, scope, piece, t.calls);
    AppendRound(s.rounds, last, w);
  }

  lemma OpenIsScoped(text: string, s: State, w: World, piece: Piece, after: seq<Call>)
    requires Sensible(w) && Open(text, s, w).Opened?
    ensures Scoped(Record(s, text, Open(text, s, w).scope, piece, after), s.scope, w)
  {
  }

  /** A round whose commands left a healthy, or a finished, state. */
  lemma RoundEnds(text: string, s: State, scope: Scope, piece: Piece, t: State, w: World, over: bool)
    requires Sensible(w) && LoopInv(s, w) && Open(text, s, w).Opened? && scope == Open(text, s, w).scope
    requires t.rounds == s.rounds && t.scope == scope && CallsFit(scope, s.calls, t.calls)
    requires if over then EndsHealthy(t, w) else Healthy(t, w)
    ensures var u := Recorded(s, text, scope, piece, t);
            FinalInv(u, w) && (!over ==> LoopInv(u, w))
  {
    OpenIsScoped(text, s, w, piece, t.calls);
    RecordKeeps(s, text, scope, piece, t, w);
    if !over { HealthyEnds(t, w); }
  }

  lemma DoRoundIs(text: string, s: State, w: World)
    requires Sensible(w) && Open(text, s, w).Opened?
    ensures var o := Open(text, s, w);
            var piece := FirstPiece(o.text);
            var done := Attempt(s.(scope := o.scope, delim := piece.matched), piece.command, w);
            var p := DoRound(text, s, w);
            && p.state == Recorded(s, text, o.scope, piece, done.state)
            && (p.GoOn? <==> done.GoOn? && piece.rest.Some?)
            && (p.GoOn? ==> p.rest == piece.rest.value)
  {
  }

  lemma AttemptIsSound(s: State, command: string, w: World)
    requires Healthy(s, w) && (command != "" ==> !IsSpace(command[0]))
    ensures var p := Attempt(s, command, w);
            Sound(p, w) && Extends(s, p.state) && CallsFit(s.scope, s.calls, p.state.calls)
  {
    if command != "" {
      L.CommandHasAWord(command);
      RunCommandIsSound(s, L.Argv(command), w);
    }
  }

  lemma RefusedIsSound(s: State, e: C.Error, w: World)
    requires Sensible(w) && LoopInv(s, w)
    ensures FinalInv(AddResult(s.(scope := ActiveView), BadCriteria(e)), w)
  {
    AppendFine(s.results, BadCriteria(e));
    HealthyEnds(s, w);
  }

  lemma AttemptedRound(text: string, s: State, scope: Scope, piece: Piece, w: World)
    requires Sensible(w) && LoopInv(s, w) && Open(text, s, w).Opened? && scope == Open(text, s, w).scope
    requires piece.command != "" ==> !IsSpace(piece.command[0])
    ensures var done := Attempt(s.(scope := scope, delim := piece.matched), piece.command, w);
            var u := Recorded(s, text, scope, piece, done.state);
            FinalInv(u, w) && (done.GoOn? ==> LoopInv(u, w))
  {
    var t := s.(scope := scope, delim := piece.matched);
    AttemptIsSound(t, piece.command, w);
    var done := Attempt(t, piece.command, w);
    RoundEnds(text, s, scope, piece, done.state, w, done.Over?);
  }

  lemma OpenedRoundIsSound(text: string, s: State, w: World)
    requires Sensible(w) && LoopInv(s, w) && Open(text, s, w).Opened?
    ensures FinalInv(DoRound(text, s, w).state, w)
    ensures DoRound(text, s, w).GoOn? ==> LoopInv(DoRound(text, s, w).state, w)
  {
    var o := Open(text, s, w);
    var piece := FirstPiece(o.text);
    DoRoundIs(text, s, w);
    AttemptedRound(text, s, o.scope, piece, w);
  }

  lemma DoRoundIsSound(text: string, s: State, w: World)
    requires Sensible(w) && LoopInv(s, w)
    ensures FinalInv(DoRound(text, s, w).state, w)
    ensures DoRound(text, s, w).GoOn? ==> LoopInv(DoRound(text, s, w).state, w)
  {
    match Open(text, s, w)
    case Refused(e) => RefusedIsSound(s, e, w);
    case Opened(_, _) => OpenedRoundIsSound(text, s, w);
  }

  lemma {:induction false} RunIsSound(text: string, s: State, w: World)
    requires Sensible(w) && LoopInv(s, w)
    ensures FinalInv(Run(text, s, w), w)
    decreases |text|
  {
    DoRoundIsSound(text, s, w);
    match DoRound(text, s, w)
    case Over(_) =>
    case GoOn(t, rest) => RunIsSound(rest, t, w);
  }

  /** Every run of a command list: all results but the last are successes or "No
      matching node", all handler calls but the last succeeded and a failure of the
      last is the last result, each round calls the nodes of its scope in order, and
      the scope chosen behind a semicolon stays until the next semicolon. */
  lemma EveryRunIsSound(text: string, w: World)
    requires Sensible(w)
    ensures FinalInv(Run(text, INITIAL, w), w)
  {
    RunIsSound(text, INITIAL, w);
  }

  // ---------- Where the rounds start ----------

  predicate EndsWith(whole: string, text: string) {
    |text| <= |whole| && whole[|whole| - |text|..] == text
  }

  /** The first round starts with the whole list, as if behind a semicolon. Every other
      one starts right behind the delimiter that it goes by. */
  predicate Behind(whole: string, text: string, delim: char) {
    || (text == whole && delim == ';')
    || (EndsWith(whole, text) && |text| < |whole|
        && whole[|whole| - |text| - 1] == delim && delim in L.DELIMITERS)
  }

  predicate RoundsBehind(whole: string, rounds: seq<Round>) {
    && (rounds != [] ==> rounds[0].text == whole)
    && (forall i :: 0 <= i < |rounds| ==> Behind(whole, rounds[i].text, rounds[i].delim))
    && forall i :: 0 < i < |rounds| ==> |rounds[i].text| < |rounds[i - 1].text|
  }

  /** The next round starts with this text. */
  predicate Continues(whole: string, rounds: seq<Round>, text: string) {
    if rounds == [] then text == whole else |text| < |rounds[|rounds| - 1].text|
  }

  lemma EndsWithTransitive(a: string, b: string, c: string)
    requires EndsWith(a, b) && EndsWith(b, c)
    ensures EndsWith(a, c)
    ensures |c| < |b| ==> a[|a| - |c| - 1] == b[|b| - |c| - 1]
  {
    assert a[|a| - |b|..][|b| - |c|..] == a[|a| - |c|..];
  }

  lemma {:induction false} TrimEndsWith(s: string)
    ensures EndsWith(s, S.Trim(s))
  {
    if s != "" && IsSpace(s[0]) {
      TrimEndsWith(s[1..]);
      EndsWithTransitive(s, s[1..], S.Trim(s));
    }
  }

  lemma OpenEndsWith(text: string, s: State, w: World)
    requires C.RejectsEmptyName(w.accept(s.calls)) && Open(text, s, w).Opened?
    ensures EndsWith(text, Open(text, s, w).text)
  {
    var t := S.Trim(text);
    TrimEndsWith(text);
    if s.delim == ';' && t != "" && t[0] == '[' {
      var n := C.Parse(t, w.accept(s.calls)).length;
      EndsWithTransitive(text, t, t[n..]);
      TrimEndsWith(t[n..]);
      EndsWithTransitive(text, t[n..], S.Trim(t[n..]));
    }
  }

  lemma FirstPieceBehind(text: string)
    ensures var p := FirstPiece(text);
            p.rest.Some? ==> EndsWith(text, p.rest.value) && |p.rest.value| < |text|
                             && text[|text| - |p.rest.value| - 1] == p.matched && p.matched in L.DELIMITERS
  {
    A.CutIsInside(text, L.DELIMITERS);
    FirstPieceIs(text, A.Separate(text, L.DELIMITERS));
  }

  lemma GoesOnBehindThePiece(text: string, s: State, list: string, scope: Scope, w: World)
    requires Sensible(w) && LoopInv(s, w) && Open(text, s, w) == Opened(scope, list) && DoRound(text, s, w).GoOn?
    ensures var p := DoRound(text, s, w);
            FirstPiece(list).rest == Some(p.rest) && p.state.delim == FirstPiece(list).matched
  {
    var piece := FirstPiece(list);
    AttemptIsSound(s.(scope := scope, delim := piece.matched), piece.command, w);
  }

  lemma RestOfSuffix(text: string, list: string, rest: string, delim: char)
    requires EndsWith(text, list) && FirstPiece(list).rest == Some(rest) && FirstPiece(list).matched == delim
    ensures EndsWith(text, rest) && |rest| < |text| && text[|text| - |rest| - 1] == delim && delim in L.DELIMITERS
  {
    FirstPieceBehind(list);
    EndsWithTransitive(text, list, rest);
  }

  /** What a round leaves for the next one. */
  lemma RestIsBehind(text: string, s: State, w: World)
    requires Sensible(w) && LoopInv(s, w) && DoRound(text, s, w).GoOn?
    ensures var p := DoRound(text, s, w);
            && EndsWith(text, p.rest) && |p.rest| < |text|
            && text[|text| - |p.rest| - 1] == p.state.delim && p.state.delim in L.DELIMITERS
  {
    var list := Open(text, s, w).text;
    var p := DoRound(text, s, w);
    GoesOnBehindThePiece(text, s, list, Open(text, s, w).scope, w);
    OpenEndsWith(text, s, w);
    RestOfSuffix(text, list, p.rest, p.state.delim);
  }

  /** A round adds nothing but its own record to the rounds. */
  lemma RoundIsRecorded(text: string, s: State, w: World)
    requires Sensible(w) && LoopInv(s, w)
    ensures var u := DoRound(text, s, w).state;
            if Open(text, s, w).Refused? then u.rounds == s.rounds
            else exists r :: u.rounds == s.rounds + [r] && r.text == text && r.delim == s.delim
  {
    match Open(text, s, w)
    case Refused(_) =>
    case Opened(scope, list) =>
      var piece := FirstPiece(list);
      var t := s.(scope := scope, delim := piece.matched);
      DoRoundIs(text, s, w);
      AttemptIsSound(t, piece.command, w);
      var u := DoRound(text, s, w).state;
      assert u.rounds == s.rounds + [u.rounds[|s.rounds|]];
  }

  lemma AddRoundBehind(whole: string, rounds: seq<Round>, r: Round)
    requires RoundsBehind(whole, rounds) && Continues(whole, rounds, r.text) && Behind(whole, r.text, r.delim)
    ensures RoundsBehind(whole, rounds + [r])
  {
    var more := rounds + [r];
    forall i | 0 <= i < |more| ensures Behind(whole, more[i].text, more[i].delim) {
      if i < |rounds| { assert more[i] == rounds[i]; }
    }
  }

  lemma RoundKeepsBehind(whole: string, text: string, s: State, w: World)
    requires Sensible(w) && LoopInv(s, w)
    requires RoundsBehind(whole, s.rounds) && Continues(whole, s.rounds, text) && Behind(whole, text, s.delim)
    ensures RoundsBehind(whole, DoRound(text, s, w).state.rounds)
  {
    RoundIsRecorded(text, s, w);
    if Open(text, s, w).Opened? {
      var r :| DoRound(text, s, w).state.rounds == s.rounds + [r] && r.text == text && r.delim == s.delim;
      AddRoundBehind(whole, s.rounds, r);
    }
  }

  lemma GoesOnBehind(whole: string, text: string, s: State, w: World)
    requires Sensible(w) && LoopInv(s, w) && DoRound(text, s, w).GoOn? && Behind(whole, text, s.delim)
    ensures var p := DoRound(text, s, w);
            Behind(whole, p.rest, p.state.delim) && Continues(whole, p.state.rounds, p.rest)
  {
    RestIsBehind(text, s, w);
    EndsWithTransitive(whole, text, DoRound(text, s, w).rest);
    RoundIsRecorded(text, s, w);
    assert Open(text, s, w).Opened?;
  }

  lemma {:induction false} RunIsBehind(whole: string, text: string, s: State, w: World)
    requires Sensible(w) && LoopInv(s, w)
    requires RoundsBehind(whole, s.rounds) && Continues(whole, s.rounds, text) && Behind(whole, text, s.delim)
    ensures RoundsBehind(whole, Run(text, s, w).rounds)
    decreases |text|
  {
    RoundKeepsBehind(whole, text, s, w);
    DoRoundIsSound(text, s, w);
    var p := DoRound(text, s, w);
    if p.GoOn? {
      GoesOnBehind(whole, text, s, w);
      RunIsBehind(whole, p.rest, p.state, w);
    }
  }

  /** The first round is at the start of the list; each later one is further on, right
      behind the delimiter that decides whether it looks for criteria. */
  lemma EveryRoundIsBehindItsDelimiter(text: string, w: World)
    requires Sensible(w)
    ensures RoundsBehind(text, Run(text, INITIAL, w).rounds)
  {
    RunIsBehind(text, text, INITIAL, w);
  }

  // ---------- Quoted commands ----------

  lemma PieceOfLine(word: string, args: seq<L.Arg>, rest: string)
    requires L.Word(word) && L.AllProtected(args)
    requires rest != [] ==> rest[0] in L.DELIMITERS
    ensures FirstPiece(L.Line(word, args) + rest) == PieceBefore(L.Line(word, args), rest)
  {
    var line := L.Line(word, args);
    var text := line + rest;
    L.LineIsLeftWhole(word, args, rest);
    FirstPieceIs(text, A.Separate(text, L.DELIMITERS));
    LineStartsWord(word, args);
    if rest == [] {
      assert text[0..] == line;
    } else {
      assert text[0..|line|] == line && text[|line| + 1..] == rest[1..];
    }
  }

  /** A command in front of nothing, or of a delimiter and more commands. */
  function PieceBefore(command: string, rest: string): Piece {
    if rest == [] then Piece(command, NUL, None) else Piece(command, rest[0], Some(rest[1..]))
  }

  lemma LineStartsWord(word: string, args: seq<L.Arg>)
    requires L.Word(word)
    ensures var line := L.Line(word, args);
            line != [] && line[0] == word[0] && !IsSpace(line[0]) && S.Trim(line) == line
  {
    L.LineStarts(word, args);
  }

  ghost predicate Quotable(word: string, args: seq<L.Arg>, rest: string) {
    && L.Word(word) && word[0] != '[' && L.AllProtected(args)
    && (rest != [] ==> rest[0] in L.DELIMITERS)
  }

  /** The arguments that a handler gets: without the quotes, but for three commands. */
  function ArgvOf(word: string, args: seq<L.Arg>): (argv: seq<string>)
    ensures argv != [] && argv[0] == word
  {
    [word] + if word == "exec" || word == "exec_always" || word == "mode" then L.WrittenAll(args) else L.Texts(args)
  }

  lemma LineHasArgv(word: string, args: seq<L.Arg>)
    requires L.Word(word) && L.AllProtected(args)
    ensures L.Argv(L.Line(word, args)) == ArgvOf(word, args)
  {
    if word == "exec" || word == "exec_always" || word == "mode" {
      L.QuotesAreKept(word, args);
    } else {
      L.QuotingRoundTrip(word, args, []);
    }
  }

  /** The round for a text ran the command of a line in a scope, and left what is behind
      the delimiter. */
  predicate RanWith(text: string, s: State, w: World, scope: Scope, piece: Piece, argv: seq<string>)
    requires C.RejectsEmptyName(w.accept(s.calls)) && argv != []
  {
    var done := RunCommand(s.(scope := scope, delim := piece.matched), argv, w);
    var p := DoRound(text, s, w);
    && p.state == Recorded(s, text, scope, piece, done.state)
    && (p.GoOn? <==> done.GoOn? && piece.rest.Some?)
    && (p.GoOn? ==> p.rest == piece.rest.value)
  }

  lemma OpenedLineRuns(text: string, scope: Scope, word: string, args: seq<L.Arg>, rest: string, s: State, w: World)
    requires Sensible(w) && Quotable(word, args, rest)
    requires Open(text, s, w) == Opened(scope, L.Line(word, args) + rest)
    ensures RanWith(text, s, w, scope, PieceBefore(L.Line(word, args), rest), ArgvOf(word, args))
  {
    LineStartsWord(word, args);
    PieceOfLine(word, args, rest);
    LineHasArgv(word, args);
    DoRoundIs(text, s, w);
  }

  /** White space in front of a round's text does not matter. */
  lemma OpenSkipsSpace(space: string, text: string, s: State, w: World)
    requires Sensible(w) && AllSpace(space)
    ensures Open(space + text, s, w) == Open(text, s, w)
  {
    S.TrimSkips(space, text);
  }

  /** A command whose arguments the user protected runs with exactly these arguments, on
      the active view behind a semicolon and else on the nodes selected before, and the
      round ends right behind the line. */
  lemma QuotedLineRuns(space: string, word: string, args: seq<L.Arg>, rest: string, s: State, w: World)
    requires Sensible(w) && AllSpace(space) && Quotable(word, args, rest)
    ensures var scope := if s.delim == ';' then ActiveView else s.scope;
            var line := L.Line(word, args);
            RanWith(space + (line + rest), s, w, scope, PieceBefore(line, rest), ArgvOf(word, args))
  {
    var text := L.Line(word, args) + rest;
    LineStartsWord(word, args);
    assert text[0] == L.Line(word, args)[0];
    OpenSkipsSpace(space, text, s, w);
    OpenedLineRuns(space + text, if s.delim == ';' then ActiveView else s.scope, word, args, rest, s, w);
  }

  lemma TrimLine(gap: string, line: string, rest: string)
    requires AllSpace(gap) && line != "" && !IsSpace(line[0])
    ensures S.Trim(gap + (line + rest)) == line + rest
  {
    S.TrimSkips(gap, line + rest);
    assert (line + rest)[0] == line[0];
  }

  lemma OpenSelects(pairs: seq<C.Pair>, behind: string, s: State, w: World)
    requires Sensible(w) && C.Printable(pairs) && s.delim == ';'
    ensures Open(C.Print(pairs) + behind, s, w) ==
            match C.Outcome(C.AcceptAll(C.NO_FIELDS, pairs, w.accept(s.calls)), |C.Print(pairs)|)
            case Parsed(f, _) => Opened(Selected(w.select(s.calls, f)), S.Trim(behind))
            case Failed(e) => Refused(e)
  {
    var text := C.Print(pairs) + behind;
    C.ParsePrint(pairs, behind, w.accept(s.calls));
    assert text[0] == '[' && text[|C.Print(pairs)|..] == behind;
  }

  /** Printed criteria in front of such a command select its nodes, if parse_token takes
      all pairs and they say anything; otherwise the command list ends with their error. */
  lemma SelectedLineRuns(space: string, pairs: seq<C.Pair>, gap: string, word: string, args: seq<L.Arg>, rest: string,
                         s: State, w: World)
    requires Sensible(w) && AllSpace(space) && AllSpace(gap)
    requires Quotable(word, args, rest) && C.Printable(pairs) && s.delim == ';'
    ensures var line := L.Line(word, args);
            var text := space + (C.Print(pairs) + (gap + (line + rest)));
            match C.Outcome(C.AcceptAll(C.NO_FIELDS, pairs, w.accept(s.calls)), |C.Print(pairs)|)
            case Parsed(f, _) =>
              RanWith(text, s, w, Selected(w.select(s.calls, f)), PieceBefore(line, rest), ArgvOf(word, args))
            case Failed(e) => DoRound(text, s, w) == Over(AddResult(s.(scope := ActiveView), BadCriteria(e)))
  {
    var line := L.Line(word, args);
    var text := C.Print(pairs) + (gap + (line + rest));
    LineStartsWord(word, args);
    TrimLine(gap, line, rest);
    OpenSelects(pairs, gap + (line + rest), s, w);
    OpenSkipsSpace(space, text, s, w);
    match Open(space + text, s, w)
    case Opened(scope, _) => OpenedLineRuns(space + text, scope, word, args, rest, s, w);
    case Refused(_) =>
  }

  /** Delimiters in front of a command are skipped. */
  lemma FirstPieceSkipsDelimiters(lead: string, text: string)
    requires forall i :: 0 <= i < |lead| ==> lead[i] in L.DELIMITERS
    ensures FirstPiece(lead + text) == FirstPiece(text)
  {
    forall i | 0 <= i < |lead| ensures A.Ends(A.CLEAR, lead[i], L.DELIMITERS) {
      L.DelimitersAreNotSpecial(lead[i]);
    }
    A.SeparateSkipsDelimiters(lead, text, L.DELIMITERS);
    var cut, shifted := A.Separate(text, L.DELIMITERS), A.Separate(lead + text, L.DELIMITERS);
    FirstPieceIs(text, cut);
    FirstPieceIs(lead + text, shifted);
    assert A.TokenText(lead + text, shifted) == A.TokenText(text, cut);
    if cut.end.Some? {
      assert (lead + text)[|lead| + cut.end.value + 1..] == text[cut.end.value + 1..];
    }
  }

  // ---------- execute_command on its buffer ----------

  /** Moves over white space. */
  method SkipSpace(buf: array<char>, p: nat, ghost text: string) returns (head: nat)
    requires Holds(buf[..], p, text)
    ensures p <= head && Holds(buf[..], head, S.Trim(text))
  {
    head := p;
    ghost var t := text;
    TextStarts(buf[..], head, t);
    while IsSpace(buf[head])
      invariant p <= head && Holds(buf[..], head, t) && S.Trim(t) == S.Trim(text)
      decreases buf.Length - head
    {
      TextStarts(buf[..], head, t);
      head := head + 1;
      t := t[1..];
    }
    TextStarts(buf[..], head, t);
  }

  lemma FirstPieceIs(text: string, cut: A.Cut)
    requires cut == A.Separate(text, L.DELIMITERS)
    ensures cut.start <= |text| && (cut.end.Some? ==> cut.start < cut.end.value < |text|)
    ensures var p := FirstPiece(text);
            && p.command == S.Trim(A.TokenText(text, cut)) && p.rest.Some? == cut.end.Some?
            && p.matched == (if cut.end.Some? then text[cut.end.value] else NUL)
            && (cut.end.Some? ==> p.rest.value == text[cut.end.value + 1..])
  {
    A.CutIsInside(text, L.DELIMITERS);
  }

  /** Cuts the next token out of the buffer. */
  method NextToken(buf: array<char>, head: nat, ghost text: string)
    returns (token: nat, ghost word: string, next: Option<nat>, matched: char)
    requires Holds(buf[..], head, text)
    modifies buf
    ensures var p := FirstPiece(text);
            && Holds(buf[..], token, word) && p.command == S.Trim(word)
            && matched == p.matched && next.Some? == p.rest.Some?
            && (next.Some? ==> Holds(buf[..], next.value, p.rest.value))
  {
    ghost var cut := A.Separate(text, L.DELIMITERS);
    token, next, matched := A.Argsep(buf, head, text, L.DELIMITERS);
    word := A.TokenText(text, cut);
    FirstPieceIs(text, cut);
  }

  /** Cuts the next command out of the buffer. */
  method NextCommand(buf: array<char>, head: nat, ghost text: string)
    returns (command: string, next: Option<nat>, matched: char)
    requires Holds(buf[..], head, text)
    modifies buf
    ensures var p := FirstPiece(text);
            && command == p.command && matched == p.matched && next.Some? == p.rest.Some?
            && (next.Some? ==> Holds(buf[..], next.value, p.rest.value))
    ensures NUL !in command
  {
    var token;
    ghost var word;
    token, word, next, matched := NextToken(buf, head, text);
    token := SkipSpace(buf, token, word);
    HoldsCStr(buf[..], token, S.Trim(word));
    command := CStr(buf[..][token..]);
  }

  /** Parses the criteria at a position of the buffer and moves behind them. */
  method ReadCriteria(buf: array<char>, p: nat, ghost text: string, accept: C.TokenParser)
    returns (fields: C.Fields, head: nat, error: Option<C.Error>)
    requires C.RejectsEmptyName(accept) && Holds(buf[..], p, text)
    ensures match C.Parse(text, accept)
            case Failed(e) => error == Some(e)
            case Parsed(f, n) => error == None && fields == f && Holds(buf[..], head, text[n..])
  {
    HoldsCStr(buf[..], p, text);
    var criteria := new C.CriteriaObject();
    var parsed := criteria.ParseText(CStr(buf[..][p..]), accept);
    fields, head, error := criteria.fields, p, criteria.error;
    if parsed {
      RestHolds(buf[..], p, text, |criteria.raw.value|);
      head, error := p + |criteria.raw.value|, None;
    }
  }

  /** The scope part of a round: white space, and criteria behind a semicolon. */
  method OpenScope(buf: array<char>, p: nat, ghost text: string, s: State, w: World)
    returns (scope: Scope, head: nat, error: Option<C.Error>)
    requires Sensible(w) && Holds(buf[..], p, text)
    ensures match Open(text, s, w)
            case Refused(e) => error == Some(e)
            case Opened(sc, t) => error == None && scope == sc && Holds(buf[..], head, t)
  {
    head := SkipSpace(buf, p, text);
    ghost var t := S.Trim(text);
    TextStarts(buf[..], head, t);
    scope, error := s.scope, None;
    if s.delim == ';' {
      scope := ActiveView;
      if buf[head] == '[' {
        var fields;
        fields, head, error := ReadCriteria(buf, head, t, w.accept(s.calls));
        if error.Some? {
          return scope, head, error;
        }
        scope := Selected(w.select(s.calls, fields));
        head := SkipSpace(buf, head, t[C.Parse(t, w.accept(s.calls)).length..]);
      }
    }
  }

  /** The loop over the selected nodes. */
  method CallForEach(s: State, argv: seq<string>, nodes: seq<Node>, w: World) returns (p: Progress)
    ensures p == ForEach(s, argv, nodes, w)
  {
    var t := s;
    for i := 0 to |nodes|
      invariant ForEach(t, argv, nodes[i..], w) == ForEach(s, argv, nodes, w)
    {
      t := AfterCall(t, argv, Some(nodes[i]), true);
      assert nodes[i..][1..] == nodes[i + 1..];
      var status := w.status(t.calls);
      if !status.Success? {
        return Over(AddResult(t, Handled(status)));
      }
    }
    return GoOn(AddResult(t, AllHandled), "");
  }

  /** One command of the list, parsed and run. */
  method Perform(s: State, command: string, w: World) returns (p: Progress)
    requires NUL !in command && (command != "" ==> !IsSpace(command[0]))
    ensures p == Attempt(s, command, w)
  {
    if command == "" {
      return GoOn(s, "");
    }
    L.CommandHasAWord(command);
    var argv := L.ParseCommand(command);
    if argv[0] !in w.handlers {
      return Over(AddResult(s, UnknownCommand(argv[0])));
    }
    match s.scope {
      case ActiveView =>
        var node, overridden := s.node, s.overridden;
        var view := w.activeView(s.calls);
        if view.Some? {
          node, overridden := view, false;
        }
        var t := AfterCall(s, argv, node, overridden);
        var status := w.status(t.calls);
        t := AddResult(t, Handled(status));
        return if status.Success? then GoOn(t, "") else Over(t);
      case Selected(nodes) =>
        if nodes == [] {
          return GoOn(AddResult(s, NoMatchingNode), "");
        }
        p := CallForEach(s, argv, nodes, w);
    }
  }

  /** What is in the buffer at a position, for the record. */
  method TextAt(buf: array<char>, p: nat, ghost text: string) returns (here: string)
    requires Holds(buf[..], p, text)
    ensures here == text
  {
    HoldsCStr(buf[..], p, text);
    here := CStr(buf[..][p..]);
  }

  /** One round on the buffer. */
  method RoundInPlace(buf: array<char>, head: nat, ghost text: string, s: State, w: World)
    returns (t: State, next: Option<nat>)
    requires Sensible(w) && Holds(buf[..], head, text)
    modifies buf
    ensures match DoRound(text, s, w)
            case Over(u) => t == u && next == None
            case GoOn(u, rest) => t == u && next.Some? && Holds(buf[..], next.value, rest)
  {
    var here := TextAt(buf, head, text);
    var scope, start, error := OpenScope(buf, head, text, s, w);
    if error.Some? {
      return AddResult(s.(scope := ActiveView), BadCriteria(error.value)), None;
    }
    ghost var list := Open(text, s, w).text;
    ghost var piece := FirstPiece(list);
    var command, matched;
    command, next, matched := NextCommand(buf, start, list);
    var rest := None;
    if next.Some? {
      var behind := TextAt(buf, next.value, piece.rest.value);
      rest := Some(behind);
    }
    var done := Perform(s.(scope := scope, delim := matched), command, w);
    t := Recorded(s, here, scope, Piece(command, matched, rest), done.state);
    if done.Over? {
      next := None;
    }
  }

  /** execute_command: the list is copied up to its first NUL, if memory is granted for
      it, and cut in place. Without the copy there is no list of results but one error. */
  method ExecuteCommand(exec: string, granted: bool, w: World)
    returns (resList: Option<seq<Entry>>, calls: seq<Call>)
    requires Sensible(w)
    ensures !granted ==> resList == None && calls == []
    ensures granted ==>
              var t := Run(CStr(exec), INITIAL, w); resList == Some(t.results) && calls == t.calls
  {
    if !granted {
      return None, [];
    }
    var n := |CStr(exec)|;
    CStrIsPrefix(exec);
    var buf := new char[n + 1](i requires 0 <= i <= n => if i < n then exec[i] else NUL);
    ghost var text := CStr(exec);
    assert buf[..][0..n] == text;
    var s := INITIAL;
    var head := Some(0);
    while head.Some?
      invariant fresh(buf)
      invariant match head
                case None => s == Run(CStr(exec), INITIAL, w)
                case Some(p) => Holds(buf[..], p, text) && Run(text, s, w) == Run(CStr(exec), INITIAL, w)
      decreases if head.Some? then |text| + 1 else 0
    {
      ghost var progress := DoRound(text, s, w);
      s, head := RoundInPlace(buf, head.value, text, s, w);
      if progress.GoOn? {
        text := progress.rest;
      }
    }
    return Some(s.results), s.calls;
  }
}
