/** What runs of a command list do exactly: which calls each round makes, when the list
    goes on, and what is answered; and the meaning of a list of written commands. */
module CommandRuns {
  import opened Helpers
  import opened Text
  import opened Commands
  import S = SplitArgs
  import L = CommandLine
  import C = Criteria

  // ---------- The calls of one command ----------

  /** The calls that a command is to make: one on the active view (or, if there is none, in
      the handler context as it is), or one on each of the selected nodes. */
  function Wanted(scope: Scope, argv: seq<string>, view: Option<Node>, node: Option<Node>, overridden: bool)
    : seq<Call>
  {
    match scope
    case ActiveView => [if view.Some? then Call(argv, view, false) else Call(argv, node, overridden)]
    case Selected(nodes) => CallsOn(argv, nodes)
  }

  function CallsOn(argv: seq<string>, nodes: seq<Node>): seq<Call> {
    seq(|nodes|, i requires 0 <= i < |nodes| => Call(argv, Some(nodes[i]), true))
  }

  predicate Succeeds(before: seq<Call>, made: seq<Call>, w: World) {
    w.status(before + made).Success?
  }

  predicate Failed(before: seq<Call>, made: seq<Call>, w: World) {
    made != [] && !Succeeds(before, made, w)
  }

  /** The wanted calls were made in order, all of them, or up to the first that failed. */
  ghost predicate Exactly(before: seq<Call>, made: seq<Call>, wanted: seq<Call>, w: World) {
    && made <= wanted
    && (made != wanted ==> Failed(before, made, w))
    && forall i :: 0 < i < |made| ==> Succeeds(before, made[..i], w)
  }

  lemma PrefixOfLonger(a: seq<Call>, b: seq<Call>, wanted: seq<Call>)
    requires a <= wanted && b <= wanted
    ensures |a| <= |b| ==> b[..|a|] == a
  {
  }

  /** There is only one way to do so. */
  lemma ExactlyOne(before: seq<Call>, a: seq<Call>, b: seq<Call>, wanted: seq<Call>, w: World)
    requires Exactly(before, a, wanted, w) && Exactly(before, b, wanted, w)
    ensures a == b
  {
    PrefixOfLonger(a, b, wanted);
    PrefixOfLonger(b, a, wanted);
  }

  /** The node of the handler context behind some calls. */
  function NodeBehind(made: seq<Call>, node: Option<Node>): Option<Node> {
    if made == [] then node else made[|made| - 1].node
  }

  function OverriddenBehind(made: seq<Call>, overridden: bool): bool {
    if made == [] then overridden else made[|made| - 1].overridden
  }

  /** The answer to a command that made some calls. */
  function Answer(argv: seq<string>, scope: Scope, before: seq<Call>, made: seq<Call>, w: World): Entry
    requires argv != []
  {
    if argv[0] !in w.handlers then UnknownCommand(argv[0])
    else if Failed(before, made, w) then Handled(w.status(before + made))
    else match scope
      case ActiveView => Handled(Success)
      case Selected(nodes) => if nodes == [] then NoMatchingNode else AllHandled
  }

  /** A command changes neither the scope nor the delimiter, nor the record of the rounds. */
  predicate SameRound(s: State, t: State) {
    t.delim == s.delim && t.scope == s.scope && t.rounds == s.rounds
  }

  /** What a command with these arguments does in state s. */
  ghost predicate DoesExactly(s: State, argv: seq<string>, w: World, p: Progress)
    requires argv != []
  {
    var t := p.state;
    var known := argv[0] in w.handlers;
    var wanted := if known then Wanted(s.scope, argv, w.activeView(s.calls), s.node, s.overridden) else [];
    && s.calls <= t.calls && SameRound(s, t)
    && var made := t.calls[|s.calls|..];
    && Exactly(s.calls, made, wanted, w)
    && (p.GoOn? <==> known && !Failed(s.calls, made, w))
    && t.results == s.results + [Answer(argv, s.scope, s.calls, made, w)]
    && t.node == NodeBehind(made, s.node) && t.overridden == OverriddenBehind(made, s.overridden)
  }

  lemma ExactlyCons(before: seq<Call>, c: Call, made: seq<Call>, wanted: seq<Call>, w: World)
    requires Succeeds(before, [c], w) && Exactly(before + [c], made, wanted, w)
    ensures Exactly(before, [c] + made, [c] + wanted, w)
    ensures Failed(before, [c] + made, w) <==> Failed(before + [c], made, w)
  {
    assert before + [c] + made == before + ([c] + made);
    if made == [] { assert [c] + made == [c]; }
    forall i | 0 < i < |[c] + made| ensures Succeeds(before, ([c] + made)[..i], w) {
      if i == 1 {
        assert ([c] + made)[..1] == [c];
      } else {
        assert ([c] + made)[..i] == [c] + made[..i - 1];
        assert before + [c] + made[..i - 1] == before + ([c] + made[..i - 1]);
      }
    }
  }

  lemma FailsAtOnce(before: seq<Call>, c: Call, wanted: seq<Call>, w: World)
    requires wanted != [] && wanted[0] == c && !Succeeds(before, [c], w)
    ensures Exactly(before, [c], wanted, w) && Failed(before, [c], w)
  {
  }

  /** What the loop over selected nodes does. */
  ghost predicate LoopsExactly(s: State, argv: seq<string>, nodes: seq<Node>, w: World, p: Progress) {
    var t := p.state;
    && s.calls <= t.calls && SameRound(s, t)
    && var made := t.calls[|s.calls|..];
    && Exactly(s.calls, made, CallsOn(argv, nodes), w)
    && (p.GoOn? <==> !Failed(s.calls, made, w))
    && t.results == s.results + [if p.GoOn? then AllHandled else Handled(w.status(t.calls))]
    && t.node == NodeBehind(made, s.node) && t.overridden == OverriddenBehind(made, s.overridden)
  }

  lemma ForEachFails(s: State, argv: seq<string>, nodes: seq<Node>, w: World)
    requires nodes != [] && !w.status(AfterCall(s, argv, Some(nodes[0]), true).calls).Success?
    ensures LoopsExactly(s, argv, nodes, w, ForEach(s, argv, nodes, w))
  {
    var c := Call(argv, Some(nodes[0]), true);
    FailsAtOnce(s.calls, c, CallsOn(argv, nodes), w);
    assert (s.calls + [c])[|s.calls|..] == [c];
  }

  lemma LoopsOn(s: State, t: State, c: Call, argv: seq<string>, nodes: seq<Node>, w: World, p: Progress)
    requires nodes != [] && c == Call(argv, Some(nodes[0]), true) && Succeeds(s.calls, [c], w)
    requires t == AfterCall(s, argv, Some(nodes[0]), true) && LoopsExactly(t, argv, nodes[1..], w, p)
    ensures LoopsExactly(s, argv, nodes, w, p)
  {
    var made := p.state.calls[|t.calls|..];
    ExactlyCons(s.calls, c, made, CallsOn(argv, nodes[1..]), w);
    assert CallsOn(argv, nodes) == [c] + CallsOn(argv, nodes[1..]);
    assert p.state.calls[|s.calls|..] == [c] + made;
  }

  lemma {:induction false} ForEachIsExact(s: State, argv: seq<string>, nodes: seq<Node>, w: World)
    ensures LoopsExactly(s, argv, nodes, w, ForEach(s, argv, nodes, w))
    decreases |nodes|
  {
    if nodes != [] {
      var t := AfterCall(s, argv, Some(nodes[0]), true);
      if w.status(t.calls).Success? {
        ForEachIsExact(t, argv, nodes[1..], w);
        LoopsOn(s, t, Call(argv, Some(nodes[0]), true), argv, nodes, w, ForEach(t, argv, nodes[1..], w));
      } else {
        ForEachFails(s, argv, nodes, w);
      }
    }
  }

  lemma ActiveViewIsExact(s: State, argv: seq<string>, w: World)
    requires argv != [] && argv[0] in w.handlers && s.scope == ActiveView
    ensures DoesExactly(s, argv, w, RunCommand(s, argv, w))
  {
    var view := w.activeView(s.calls);
    var c := if view.Some? then Call(argv, view, false) else Call(argv, s.node, s.overridden);
    assert (s.calls + [c])[|s.calls|..] == [c];
  }

  /** A command makes exactly the calls that its scope asks for, up to the first failure; the
      list goes on behind it if and only if the command is known and no call failed; and
      there is one answer, which says what happened. */
  lemma RunCommandIsExact(s: State, argv: seq<string>, w: World)
    requires argv != []
    ensures DoesExactly(s, argv, w, RunCommand(s, argv, w))
  {
    if argv[0] in w.handlers {
      match s.scope
      case ActiveView => ActiveViewIsExact(s, argv, w);
      case Selected(nodes) =>
        if nodes != [] {
          ForEachIsExact(s, argv, nodes, w);
          var t := RunCommand(s, argv, w).state;
          assert t.calls == s.calls + t.calls[|s.calls|..];
        }
    }
  }

  // ---------- Runs ----------

  /** The arguments of the command of a round. */
  function Arguments(r: Round): seq<string> {
    if r.command == "" || IsSpace(r.command[0]) then [""] else L.Argv(r.command)
  }

  predicate Known(r: Round, w: World) {
    r.command == "" || (Arguments(r) != [] && Arguments(r)[0] in w.handlers)
  }

  /** The calls that a round is to make. */
  function WantedBy(r: Round, w: World): seq<Call> {
    if r.command == "" || !Known(r, w) then []
    else Wanted(r.scope, Arguments(r), w.activeView(r.before), r.node, r.overridden)
  }

  /** What a round answers: nothing to an empty command. */
  function Answers(r: Round, w: World): seq<Entry> {
    if r.command == "" then []
    else if Arguments(r) == [] then []
    else [Answer(Arguments(r), r.scope, r.before, r.made, w)]
  }

  /** Whether a round ends the list. */
  predicate Fails(r: Round, w: World) {
    !Known(r, w) || Failed(r.before, r.made, w)
  }

  /** The text from which a round cuts its command: behind white space and criteria. */
  function ListOf(r: Round, w: World): string
    requires Sensible(w)
  {
    var t := S.Trim(r.text);
    if r.delim != ';' || t == "" || t[0] != '[' then t
    else match C.Parse(t, w.accept(r.before))
      case Failed(_) => ""
      case Parsed(_, n) => S.Trim(t[n..])
  }

  ghost predicate RoundExact(r: Round, w: World)
    requires Sensible(w)
  {
    && FirstPiece(ListOf(r, w)) == Piece(r.command, r.matched, r.rest)
    && Exactly(r.before, r.made, WantedBy(r, w), w)
  }

  function AllAnswers(rounds: seq<Round>, w: World): seq<Entry> {
    if rounds == [] then []
    else AllAnswers(rounds[..|rounds| - 1], w) + Answers(rounds[|rounds| - 1], w)
  }

  /** What some rounds leave for the next one: the text, the delimiter it goes by, the
      handler context and the calls so far. */
  datatype Start = Start(text: string, delim: char, node: Option<Node>, overridden: bool, before: seq<Call>)

  predicate StartsAt(r: Round, start: Start) {
    r.text == start.text && r.delim == start.delim && r.node == start.node && r.overridden == start.overridden
    && r.before == start.before
  }

  function LeftBy(whole: string, rounds: seq<Round>, w: World): Option<Start> {
    if rounds == [] then Some(Start(whole, ';', None, false, []))
    else
      var r := rounds[|rounds| - 1];
      if Fails(r, w) || r.rest.None? then None
      else Some(Start(r.rest.value, r.matched, NodeBehind(r.made, r.node), OverriddenBehind(r.made, r.overridden),
                      r.before + r.made))
  }

  ghost predicate RoundsExact(whole: string, rounds: seq<Round>, w: World)
    requires Sensible(w)
  {
    forall i :: 0 <= i < |rounds| ==> RoundExact(rounds[i], w) && LeftFor(whole, rounds, i, w)
  }

  /** Round i starts with what the rounds before it left. */
  predicate LeftFor(whole: string, rounds: seq<Round>, i: nat, w: World)
    requires i < |rounds|
  {
    var left := LeftBy(whole, rounds[..i], w);
    left.Some? && StartsAt(rounds[i], left.value)
  }

  /** The criteria at the start of a text, behind a semicolon, are in error. */
  predicate BadStart(start: Start, w: World, e: C.Error)
    requires Sensible(w)
  {
    var t := S.Trim(start.text);
    start.delim == ';' && t != "" && t[0] == '[' && C.Parse(t, w.accept(start.before)) == C.Failed(e)
  }

  /** The end of a run. Either the last round left nothing: its command failed, or the list
      ended with it. Or what it left starts with criteria in error. */
  ghost predicate EndsExactly(whole: string, t: State, w: World)
    requires Sensible(w)
  {
    var left := LeftBy(whole, t.rounds, w);
    && RoundsExact(whole, t.rounds, w)
    && match left
       case None => t.results == AllAnswers(t.rounds, w)
       case Some(start) =>
         exists e :: BadStart(start, w, e) && t.results == AllAnswers(t.rounds, w) + [BadCriteria(e)]
  }

  /** Between two rounds. */
  ghost predicate GoesOnExactly(whole: string, text: string, s: State, w: World)
    requires Sensible(w)
  {
    && RoundsExact(whole, s.rounds, w) && s.results == AllAnswers(s.rounds, w)
    && LeftBy(whole, s.rounds, w) == Some(Start(text, s.delim, s.node, s.overridden, s.calls))
  }

  lemma AttemptIsExact(s: State, command: string, w: World)
    requires command != "" ==> !IsSpace(command[0])
    ensures var p := Attempt(s, command, w);
            if command == "" then p == GoOn(s, "") else L.Argv(command) != [] && DoesExactly(s, L.Argv(command), w, p)
  {
    if command != "" {
      L.CommandHasAWord(command);
      RunCommandIsExact(s, L.Argv(command), w);
    }
  }

  /** What one round adds, when its criteria, if any, are accepted. */
  ghost predicate AddsExactly(s: State, r: Round, p: Progress, w: World)
    requires Sensible(w)
  {
    var u := p.state;
    && RoundExact(r, w) && StartsAt(r, Start(r.text, s.delim, s.node, s.overridden, s.calls))
    && u.rounds == s.rounds + [r] && u.results == s.results + Answers(r, w)
    && u.calls == r.before + r.made
    && u.node == NodeBehind(r.made, r.node) && u.overridden == OverriddenBehind(r.made, r.overridden)
    && (p.GoOn? <==> !Fails(r, w) && r.rest.Some?)
    && (p.GoOn? ==> r.rest == Some(p.rest) && u.delim == r.matched)
  }

  lemma EmptyRound(s: State, text: string, scope: Scope, piece: Piece, w: World)
    requires Sensible(w) && piece.command == ""
    ensures var r := Record(s, text, scope, piece, s.calls);
            && Exactly(r.before, r.made, WantedBy(r, w), w) && Answers(r, w) == [] && !Fails(r, w) && r.made == []
            && s.calls == r.before + r.made
  {
  }

  /** The record of a round whose command did what it was to do. */
  lemma CommandRound(s: State, text: string, scope: Scope, piece: Piece, argv: seq<string>, done: Progress, w: World)
    requires Sensible(w) && piece.command != "" && !IsSpace(piece.command[0])
    requires argv == L.Argv(piece.command) && argv != []
    requires DoesExactly(s.(scope := scope, delim := piece.matched), argv, w, done)
    ensures var r := Record(s, text, scope, piece, done.state.calls);
            && Exactly(r.before, r.made, WantedBy(r, w), w) && done.state.results == s.results + Answers(r, w)
            && (done.GoOn? <==> !Fails(r, w)) && done.state.calls == r.before + r.made
            && done.state.node == NodeBehind(r.made, r.node)
            && done.state.overridden == OverriddenBehind(r.made, r.overridden)
  {
    var r := Record(s, text, scope, piece, done.state.calls);
    assert Arguments(r) == argv && r.made == done.state.calls[|s.calls|..];
  }

  lemma RecordIsOfList(s: State, text: string, scope: Scope, list: string, after: seq<Call>, w: World)
    requires Sensible(w) && Open(text, s, w) == Opened(scope, list)
    ensures var r := Record(s, text, scope, FirstPiece(list), after);
            FirstPiece(ListOf(r, w)) == Piece(r.command, r.matched, r.rest)
  {
  }

  lemma AttemptAdds(text: string, s: State, scope: Scope, piece: Piece, w: World)
    requires Sensible(w) && (piece.command != "" ==> !IsSpace(piece.command[0]))
    ensures var done := Attempt(s.(scope := scope, delim := piece.matched), piece.command, w);
            var r := Record(s, text, scope, piece, done.state.calls);
            && Exactly(r.before, r.made, WantedBy(r, w), w) && done.state.results == s.results + Answers(r, w)
            && (done.GoOn? <==> !Fails(r, w)) && done.state.calls == r.before + r.made
            && done.state.node == NodeBehind(r.made, r.node)
            && done.state.overridden == OverriddenBehind(r.made, r.overridden)
  {
    var before := s.(scope := scope, delim := piece.matched);
    AttemptIsExact(before, piece.command, w);
    if piece.command == "" {
      EmptyRound(s, text, scope, piece, w);
    } else {
      CommandRound(s, text, scope, piece, L.Argv(piece.command), Attempt(before, piece.command, w), w);
    }
  }

  lemma OpenedRoundAdds(text: string, s: State, scope: Scope, list: string, w: World)
    requires Sensible(w) && LoopInv(s, w) && Open(text, s, w) == Opened(scope, list)
    ensures var p := DoRound(text, s, w);
            exists r: Round :: r.text == text && AddsExactly(s, r, p, w)
  {
    var piece := FirstPiece(list);
    var before := s.(scope := scope, delim := piece.matched);
    var done := Attempt(before, piece.command, w);
    DoRoundIs(text, s, w);
    AttemptAdds(text, s, scope, piece, w);
    AttemptIsSound(before, piece.command, w);
    RecordIsOfList(s, text, scope, list, done.state.calls, w);
    var r := Record(s, text, scope, piece, done.state.calls);
    assert r.text == text && AddsExactly(s, r, DoRound(text, s, w), w);
  }

  lemma AddLeft(whole: string, rounds: seq<Round>, r: Round, w: World)
    requires Sensible(w) && RoundsExact(whole, rounds, w) && RoundExact(r, w)
    requires LeftBy(whole, rounds, w).Some? && StartsAt(r, LeftBy(whole, rounds, w).value)
    ensures RoundsExact(whole, rounds + [r], w)
  {
    var more := rounds + [r];
    forall i | 0 <= i < |more| ensures RoundExact(more[i], w) && LeftFor(whole, more, i, w) {
      if i < |rounds| {
        assert more[i] == rounds[i] && more[..i] == rounds[..i] && LeftFor(whole, rounds, i, w);
      } else {
        assert more[..i] == rounds;
      }
    }
  }

  /** A round goes from exact to exact. */
  lemma RoundIsExact(whole: string, text: string, s: State, w: World)
    requires Sensible(w) && LoopInv(s, w) && GoesOnExactly(whole, text, s, w)
    ensures var p := DoRound(text, s, w);
            match p
            case Over(t) => EndsExactly(whole, t, w)
            case GoOn(t, rest) => GoesOnExactly(whole, rest, t, w)
  {
    match Open(text, s, w)
    case Refused(e) =>
      assert BadStart(Start(text, s.delim, s.node, s.overridden, s.calls), w, e);
    case Opened(scope, list) =>
      OpenedRoundAdds(text, s, scope, list, w);
      var p := DoRound(text, s, w);
      var r: Round :| r.text == text && AddsExactly(s, r, p, w);
      AddLeft(whole, s.rounds, r, w);
      assert (s.rounds + [r])[..|s.rounds|] == s.rounds;
  }

  lemma {:induction false} RunGoesOnExactly(whole: string, text: string, s: State, w: World)
    requires Sensible(w) && LoopInv(s, w) && GoesOnExactly(whole, text, s, w)
    ensures EndsExactly(whole, Run(text, s, w), w)
    decreases |text|
  {
    RoundIsExact(whole, text, s, w);
    DoRoundIsSound(text, s, w);
    match DoRound(text, s, w)
    case Over(_) =>
    case GoOn(t, rest) => RunGoesOnExactly(whole, rest, t, w);
  }

  /** Every run: each round cuts the first command out of what the round before it left, and
      makes exactly the calls its command asks for, up to the first failure. A round leaves
      the rest of the list behind the command's delimiter, and the next round takes it up,
      unless the command failed, or the criteria that follow are in error. The results are
      one answer for each command that is not empty, in order. */
  lemma EveryRunIsExact(text: string, w: World)
    requires Sensible(w)
    ensures EndsExactly(text, Run(text, INITIAL, w), w)
  {
    RunGoesOnExactly(text, text, INITIAL, w);
  }

  /** The command of a recorded round has arguments, and a round that fails says so. */
  lemma FailureIsAnswered(r: Round, w: World)
    requires Sensible(w) && RoundExact(r, w) && Fails(r, w)
    ensures |Answers(r, w)| == 1 && !Fine(Answers(r, w)[0])
  {
    var piece := FirstPiece(ListOf(r, w));
    assert r.command != "";
    L.CommandHasAWord(r.command);
  }

  lemma LastAnswerIsLast(rounds: seq<Round>, w: World)
    requires rounds != []
    ensures forall e :: e in Answers(rounds[|rounds| - 1], w) ==> e in AllAnswers(rounds, w)
  {
  }

  lemma LastFailureIsNotFine(rounds: seq<Round>, w: World)
    requires Sensible(w) && rounds != [] && RoundExact(rounds[|rounds| - 1], w) && Fails(rounds[|rounds| - 1], w)
    ensures !AllFine(AllAnswers(rounds, w))
  {
    var last := rounds[|rounds| - 1];
    FailureIsAnswered(last, w);
    LastAnswerIsLast(rounds, w);
    assert Answers(last, w)[0] in AllAnswers(rounds, w);
  }

  lemma BadCriteriaAreNotFine(results: seq<Entry>, answers: seq<Entry>)
    ensures (exists e :: results == answers + [BadCriteria(e)]) ==> !AllFine(results)
  {
    forall e ensures results == answers + [BadCriteria(e)] ==> !AllFine(results) {
      assert (answers + [BadCriteria(e)])[|answers|] == BadCriteria(e);
    }
  }

  lemma FineRunsEndWell(whole: string, t: State, w: World)
    requires Sensible(w) && EndsExactly(whole, t, w) && AllFine(t.results)
    ensures t.rounds != [] && !Fails(t.rounds[|t.rounds| - 1], w) && t.rounds[|t.rounds| - 1].rest == None
  {
    BadCriteriaAreNotFine(t.results, AllAnswers(t.rounds, w));
    assert LeftBy(whole, t.rounds, w) == None;
    var last := t.rounds[|t.rounds| - 1];
    assert RoundExact(last, w);
    assert Fails(last, w) ==> !AllFine(AllAnswers(t.rounds, w)) by {
      if Fails(last, w) { LastFailureIsNotFine(t.rounds, w); }
    }
  }

  lemma LeftByNoFailure(whole: string, rounds: seq<Round>, w: World)
    requires rounds != [] && LeftBy(whole, rounds, w).Some?
    ensures !Fails(rounds[|rounds| - 1], w)
  {
  }

  lemma EarlierRoundsDoNotFail(whole: string, rounds: seq<Round>, i: nat, w: World)
    requires Sensible(w) && RoundsExact(whole, rounds, w) && i + 1 < |rounds|
    ensures !Fails(rounds[i], w)
  {
    assert LeftFor(whole, rounds, i + 1, w);
    LeftByNoFailure(whole, rounds[..i + 1], w);
  }

  lemma FineRoundIsComplete(whole: string, t: State, i: nat, w: World)
    requires Sensible(w) && EndsExactly(whole, t, w) && AllFine(t.results) && i < |t.rounds|
    ensures t.rounds[i].made == WantedBy(t.rounds[i], w) && !Fails(t.rounds[i], w)
  {
    if i + 1 < |t.rounds| {
      EarlierRoundsDoNotFail(whole, t.rounds, i, w);
    } else {
      FineRunsEndWell(whole, t, w);
    }
    assert RoundExact(t.rounds[i], w);
  }

  /** Every round made all the calls that its command asks for, and the last one got to the
      end of the list. */
  predicate Complete(t: State, w: World) {
    && t.rounds != [] && t.rounds[|t.rounds| - 1].rest == None
    && forall i :: 0 <= i < |t.rounds| ==> t.rounds[i].made == WantedBy(t.rounds[i], w) && !Fails(t.rounds[i], w)
  }

  lemma FineEndIsComplete(whole: string, t: State, w: World)
    requires Sensible(w) && EndsExactly(whole, t, w) && AllFine(t.results)
    ensures Complete(t, w)
  {
    FineRunsEndWell(whole, t, w);
    forall i | 0 <= i < |t.rounds| ensures t.rounds[i].made == WantedBy(t.rounds[i], w) && !Fails(t.rounds[i], w) {
      FineRoundIsComplete(whole, t, i, w);
    }
  }

  lemma FineAnswer(argv: seq<string>, scope: Scope, before: seq<Call>, made: seq<Call>, w: World)
    requires argv != []
    ensures Fine(Answer(argv, scope, before, made, w)) <==> argv[0] in w.handlers && !Failed(before, made, w)
  {
  }

  lemma {:induction false} CompleteIsFine(rounds: seq<Round>, w: World)
    requires Sensible(w) && forall i :: 0 <= i < |rounds| ==> RoundExact(rounds[i], w) && !Fails(rounds[i], w)
    ensures AllFine(AllAnswers(rounds, w))
  {
    if rounds != [] {
      var last := rounds[|rounds| - 1];
      CompleteIsFine(rounds[..|rounds| - 1], w);
      if Answers(last, w) != [] {
        FineAnswer(Arguments(last), last.scope, last.before, last.made, w);
      }
    }
  }

  /** The results are all fine if and only if nothing was left out. */
  lemma FineRunsAreComplete(text: string, w: World)
    requires Sensible(w)
    ensures AllFine(Run(text, INITIAL, w).results) <==> Complete(Run(text, INITIAL, w), w)
  {
    var t := Run(text, INITIAL, w);
    EveryRunIsExact(text, w);
    if AllFine(t.results) { FineEndIsComplete(text, t, w); }
    if Complete(t, w) { CompleteIsFine(t.rounds, w); }
  }
}
