/** Lists of written commands: what such a list means, and that running its text does what
    it means. */
module CommandLists {
  import opened Helpers
  import opened Text
  import opened Commands
  import opened CommandRuns
  import Lines
  import A = ArgSep
  import L = CommandLine
  import C = Criteria

  /** A command as a user writes it: criteria (none if there are no pairs), a word, arguments,
      and the delimiter in front of the next command, if there is one; with white space in
      front of it and behind the criteria. */
  datatype Command = Command(
    space: string, criteria: seq<C.Pair>, gap: string, word: string, args: seq<L.Arg>, delim: char)

  function TextOf(c: Command, rest: string): string {
    var line := L.Line(c.word, c.args) + rest;
    c.space + if c.criteria == [] then line else C.Print(c.criteria) + (c.gap + line)
  }

  /** The text of a list of commands, with nothing or one more delimiter at its end. */
  function ListText(cmds: seq<Command>, end: string): string
    decreases cmds, 1
  {
    if cmds == [] then "" else TextOf(cmds[0], RestText(cmds, end))
  }

  /** What stands behind the first command of a list. */
  function RestText(cmds: seq<Command>, end: string): string
    requires cmds != []
    decreases cmds, 0
  {
    if |cmds| == 1 then end else [cmds[0].delim] + ListText(cmds[1..], end)
  }

  predicate IsEnd(end: string) {
    end == "" || (|end| == 1 && end[0] in L.DELIMITERS)
  }

  ghost predicate GoodCommand(c: Command) {
    && L.Word(c.word) && c.word[0] != '[' && L.AllProtected(c.args)
    && C.Printable(c.criteria) && AllSpace(c.space) && AllSpace(c.gap) && c.delim in L.DELIMITERS
  }

  /** Criteria are written behind semicolons only; behind a comma a bracket has no meaning. */
  ghost predicate GoodList(cmds: seq<Command>, delim: char) {
    cmds != [] ==>
      GoodCommand(cmds[0]) && (cmds[0].criteria != [] ==> delim == ';') && GoodList(cmds[1..], cmds[0].delim)
  }

  // ---------- What a list means ----------

  /** The surroundings of a command: the delimiter in front of it, the scope and the handler
      context so far, the calls made before. */
  datatype Context = Context(
    delim: char, scope: Scope, node: Option<Node>, overridden: bool, before: seq<Call>)

  datatype Meaning = Meaning(calls: seq<Call>, results: seq<Entry>)

  datatype Choice = Chosen(scope: Scope) | Bad(error: C.Error)

  /** What a command applies to. */
  function ScopeFor(c: Command, k: Context, w: World): Choice {
    if k.delim != ';' then Chosen(k.scope)
    else if c.criteria == [] then Chosen(ActiveView)
    else match C.Outcome(C.AcceptAll(C.NO_FIELDS, c.criteria, w.accept(k.before)), |C.Print(c.criteria)|)
      case Failed(e) => Bad(e)
      case Parsed(f, _) => Chosen(Selected(w.select(k.before, f)))
  }

  /** The first calls, through the first one that fails. */
  function Through(before: seq<Call>, wanted: seq<Call>, w: World): seq<Call>
    decreases wanted
  {
    if wanted == [] then []
    else if !Succeeds(before, [wanted[0]], w) then [wanted[0]]
    else [wanted[0]] + Through(before + [wanted[0]], wanted[1..], w)
  }

  /** The calls of a command. */
  function Makes(c: Command, scope: Scope, k: Context, w: World): seq<Call> {
    if c.word !in w.handlers then []
    else Through(k.before, Wanted(scope, ArgvOf(c.word, c.args), w.activeView(k.before), k.node, k.overridden), w)
  }

  function AnswerTo(c: Command, scope: Scope, k: Context, w: World): Entry {
    Answer(ArgvOf(c.word, c.args), scope, k.before, Makes(c, scope, k, w), w)
  }

  function Next(c: Command, scope: Scope, k: Context, w: World): Context {
    var made := Makes(c, scope, k, w);
    Context(c.delim, scope, NodeBehind(made, k.node), OverriddenBehind(made, k.overridden), k.before + made)
  }

  /** Command by command; the first error ends the list. */
  function Means(cmds: seq<Command>, k: Context, w: World): Meaning
    decreases |cmds|
  {
    if cmds == [] then Meaning([], [])
    else match ScopeFor(cmds[0], k, w)
      case Bad(e) => Meaning([], [BadCriteria(e)])
      case Chosen(scope) =>
        var made, answer := Makes(cmds[0], scope, k, w), AnswerTo(cmds[0], scope, k, w);
        if !Fine(answer) then Meaning(made, [answer])
        else
          var rest := Means(cmds[1..], Next(cmds[0], scope, k, w), w);
          Meaning(made + rest.calls, [answer] + rest.results)
  }

  // ---------- Running the text ----------

  lemma {:induction false} ThroughIsExact(before: seq<Call>, wanted: seq<Call>, w: World)
    ensures Exactly(before, Through(before, wanted, w), wanted, w)
    decreases wanted
  {
    if wanted != [] {
      if Succeeds(before, [wanted[0]], w) {
        ThroughIsExact(before + [wanted[0]], wanted[1..], w);
        ExactlyCons(before, wanted[0], Through(before + [wanted[0]], wanted[1..], w), wanted[1..], w);
        assert [wanted[0]] + wanted[1..] == wanted;
      } else {
        FailsAtOnce(before, wanted[0], wanted, w);
      }
    }
  }

  function ContextOf(s: State): Context {
    Context(s.delim, s.scope, s.node, s.overridden, s.calls)
  }

  lemma MakesIsExact(c: Command, scope: Scope, k: Context, made: seq<Call>, argv: seq<string>, w: World)
    requires argv == ArgvOf(c.word, c.args)
    requires Exactly(k.before, made,
                     if c.word in w.handlers then Wanted(scope, argv, w.activeView(k.before), k.node, k.overridden)
                     else [], w)
    ensures made == Makes(c, scope, k, w)
  {
    if c.word in w.handlers {
      var wanted := Wanted(scope, argv, w.activeView(k.before), k.node, k.overridden);
      ThroughIsExact(k.before, wanted, w);
      ExactlyOne(k.before, made, Through(k.before, wanted, w), wanted, w);
    }
  }

  /** What a command leaves, when it made some calls. */
  predicate Left(s: State, made: seq<Call>, answer: Entry, p: Progress) {
    && p.state.calls == s.calls + made && p.state.results == s.results + [answer]
    && p.state.node == NodeBehind(made, s.node) && p.state.overridden == OverriddenBehind(made, s.overridden)
    && (p.GoOn? <==> Fine(answer)) && SameRound(s, p.state)
  }

  lemma ExactlyLeaves(s: State, argv: seq<string>, w: World, p: Progress)
    requires argv != [] && DoesExactly(s, argv, w, p)
    ensures var made := p.state.calls[|s.calls|..];
            Left(s, made, Answer(argv, s.scope, s.calls, made, w), p)
  {
    FineAnswer(argv, s.scope, s.calls, p.state.calls[|s.calls|..], w);
  }

  /** A command in a scope makes its calls and gets its answer. */
  lemma CommandMakes(c: Command, s: State, w: World, k: Context, argv: seq<string>)
    requires k.before == s.calls && k.node == s.node && k.overridden == s.overridden && argv == ArgvOf(c.word, c.args)
    ensures Left(s, Makes(c, s.scope, k, w), AnswerTo(c, s.scope, k, w), RunCommand(s, argv, w))
  {
    var p := RunCommand(s, argv, w);
    RunCommandIsExact(s, argv, w);
    ExactlyLeaves(s, argv, w, p);
    MakesIsExact(c, s.scope, k, p.state.calls[|s.calls|..], argv, w);
  }

  /** The state behind the round of a command. */
  predicate RoundMakes(c: Command, scope: Scope, text: string, rest: string, s: State, w: World)
    requires C.RejectsEmptyName(w.accept(s.calls))
  {
    var k, p := ContextOf(s), DoRound(text, s, w);
    && p.state.calls == s.calls + Makes(c, scope, k, w) && p.state.results == s.results + [AnswerTo(c, scope, k, w)]
    && (p.GoOn? <==> Fine(AnswerTo(c, scope, k, w)) && rest != "")
    && (p.GoOn? ==> p.rest == rest[1..] && (rest[0] == c.delim ==> ContextOf(p.state) == Next(c, scope, k, w)))
  }

  lemma RanWithMakes(c: Command, scope: Scope, text: string, rest: string, s: State, w: World)
    requires Sensible(w)
    requires RanWith(text, s, w, scope, PieceBefore(L.Line(c.word, c.args), rest), ArgvOf(c.word, c.args))
    ensures RoundMakes(c, scope, text, rest, s, w)
  {
    var piece := PieceBefore(L.Line(c.word, c.args), rest);
    var before := s.(scope := scope, delim := piece.matched);
    CommandMakes(c, before, w, ContextOf(s), ArgvOf(c.word, c.args));
  }

  lemma FirstCommandRuns(c: Command, rest: string, s: State, w: World)
    requires Sensible(w) && GoodCommand(c) && (c.criteria != [] ==> s.delim == ';')
    requires rest != "" ==> rest[0] in L.DELIMITERS
    ensures match ScopeFor(c, ContextOf(s), w)
            case Bad(e) => DoRound(TextOf(c, rest), s, w) == Over(AddResult(s.(scope := ActiveView), BadCriteria(e)))
            case Chosen(scope) => RoundMakes(c, scope, TextOf(c, rest), rest, s, w)
  {
    if c.criteria == [] {
      QuotedLineRuns(c.space, c.word, c.args, rest, s, w);
    } else {
      SelectedLineRuns(c.space, c.criteria, c.gap, c.word, c.args, rest, s, w);
    }
    match ScopeFor(c, ContextOf(s), w)
    case Bad(_) =>
    case Chosen(scope) => RanWithMakes(c, scope, TextOf(c, rest), rest, s, w);
  }

  /** The state of a run that started with s and did what commands mean. */
  predicate Did(s: State, m: Meaning, t: State) {
    t.calls == s.calls + m.calls && t.results == s.results + m.results
  }

  lemma DidFirst(s: State, u: State, t: State, made: seq<Call>, answer: Entry, m: Meaning)
    requires u.calls == s.calls + made && u.results == s.results + [answer] && Did(u, m, t)
    ensures Did(s, Meaning(made + m.calls, [answer] + m.results), t)
  {
    Concatenation(s.calls, made, m.calls);
    Concatenation(s.results, [answer], m.results);
  }

  lemma RunOnce(text: string, s: State, w: World)
    requires Sensible(w)
    ensures Run(text, s, w) ==
            match DoRound(text, s, w)
            case Over(t) => t
            case GoOn(t, rest) => Run(rest, t, w)
  {
  }

  /** Nothing is left behind the last delimiter. */
  lemma NothingLeft(s: State, w: World)
    requires Sensible(w)
    ensures Run("", s, w).calls == s.calls && Run("", s, w).results == s.results
  {
    RunOnce("", s, w);
    var piece := FirstPiece("");
    FirstPieceIs("", A.Separate("", L.DELIMITERS));
    assert piece.command == "" && piece.rest == None;
    DoRoundIs("", s, w);
  }

  /** Running the text of any list of commands does what the list means: the calls, with
      their argument vectors and nodes, and the results are exactly these. */
  lemma {:induction false} ListRuns(cmds: seq<Command>, end: string, s: State, w: World)
    requires Sensible(w) && GoodList(cmds, s.delim) && IsEnd(end)
    ensures Did(s, Means(cmds, ContextOf(s), w), Run(ListText(cmds, end), s, w))
    decreases |cmds|
  {
    if cmds == [] {
      NothingLeft(s, w);
    } else {
      var c, rest, text, k := cmds[0], RestText(cmds, end), ListText(cmds, end), ContextOf(s);
      FirstCommandRuns(c, rest, s, w);
      RunOnce(text, s, w);
      match ScopeFor(c, k, w)
      case Bad(_) =>
      case Chosen(scope) =>
        var p := DoRound(text, s, w);
        var m := Means(cmds[1..], Next(c, scope, k, w), w);
        if p.GoOn? {
          if |cmds| == 1 {
            NothingLeft(p.state, w);
          } else {
            assert rest[1..] == ListText(cmds[1..], end);
            ListRuns(cmds[1..], end, p.state, w);
          }
          DidFirst(s, p.state, Run(p.rest, p.state, w), Makes(c, scope, k, w), AnswerTo(c, scope, k, w), m);
        }
    }
  }

  // ---------- The payload of a COMMAND ----------

  lemma TextEnds(c: Command, rest: string, end: string)
    ensures TextOf(c, rest) + end == TextOf(c, rest + end)
  {
    var line := L.Line(c.word, c.args);
    Concatenation(line, rest, end);
    if c.criteria != [] {
      Concatenation(c.gap, line + rest, end);
      Concatenation(C.Print(c.criteria), c.gap + (line + rest), end);
      Concatenation(c.space, C.Print(c.criteria) + (c.gap + (line + rest)), end);
    } else {
      Concatenation(c.space, line + rest, end);
    }
  }

  lemma {:induction false} ListEnds(cmds: seq<Command>, end: string)
    requires cmds != []
    ensures ListText(cmds, "") + end == ListText(cmds, end)
  {
    var rest := RestText(cmds, "");
    TextEnds(cmds[0], rest, end);
    if |cmds| > 1 {
      ListEnds(cmds[1..], end);
      Concatenation([cmds[0].delim], ListText(cmds[1..], ""), end);
    } else {
      assert rest + end == end;
    }
  }

  /** A text with some of its semicolons written as newlines. */
  predicate SomeNewlines(text: string, payload: string) {
    && |payload| == |text|
    && forall i :: 0 <= i < |text| ==>
         payload[i] == (if text[i] == ';' && payload[i] == '\n' then '\n' else text[i]) && text[i] != '\n'
  }

  /** The payload of a COMMAND may have any of its semicolons written as newlines: what
      execute_command gets does what the list of commands means. */
  lemma PayloadRuns(cmds: seq<Command>, payload: string, w: World)
    requires Sensible(w) && cmds != [] && GoodList(cmds, ';') && SomeNewlines(ListText(cmds, ""), payload)
    ensures Did(INITIAL, Means(cmds, ContextOf(INITIAL), w), Run(Lines.Semicolons(payload) + ";", INITIAL, w))
  {
    assert Lines.Semicolons(payload) == ListText(cmds, "");
    ListEnds(cmds, ";");
    ListRuns(cmds, ";", INITIAL, w);
  }

  /** All the commands are known, and none of them has criteria. */
  predicate AllKnown(cmds: seq<Command>, w: World) {
    forall i :: 0 <= i < |cmds| ==> cmds[i].criteria == [] && cmds[i].word in w.handlers
  }

  ghost predicate NothingFails(w: World) {
    forall calls :: w.status(calls).Success?
  }

  /** One call for each command, with its arguments, in order. */
  predicate OneEach(cmds: seq<Command>, m: Meaning) {
    && |m.calls| == |cmds| == |m.results|
    && forall i :: 0 <= i < |cmds| ==>
         m.calls[i].argv == ArgvOf(cmds[i].word, cmds[i].args) && m.results[i] == Handled(Success)
  }

  lemma OneCall(c: Command, k: Context, w: World)
    requires c.word in w.handlers && NothingFails(w)
    ensures var made := Makes(c, ActiveView, k, w);
            |made| == 1 && made[0].argv == ArgvOf(c.word, c.args) && !Failed(k.before, made, w)
  {
    var wanted := Wanted(ActiveView, ArgvOf(c.word, c.args), w.activeView(k.before), k.node, k.overridden);
    ThroughIsExact(k.before, wanted, w);
  }

  lemma OnlyCommand(c: Command, k: Context, w: World)
    requires k.scope == ActiveView && c.criteria == [] && c.word in w.handlers && NothingFails(w)
    ensures ScopeFor(c, k, w) == Chosen(ActiveView) && AnswerTo(c, ActiveView, k, w) == Handled(Success)
  {
    OneCall(c, k, w);
  }

  /** Without criteria, and if every handler succeeds, every command of the list is run once,
      in order, with the arguments that were written. */
  lemma {:induction false} AllAreRun(cmds: seq<Command>, k: Context, w: World)
    requires k.scope == ActiveView && AllKnown(cmds, w) && NothingFails(w)
    ensures OneEach(cmds, Means(cmds, k, w))
    decreases |cmds|
  {
    if cmds != [] {
      var c, rest := cmds[0], cmds[1..];
      OneCall(c, k, w);
      OnlyCommand(c, k, w);
      AllAreRun(rest, Next(c, ActiveView, k, w), w);
      OneMore(cmds, Makes(c, ActiveView, k, w), Means(rest, Next(c, ActiveView, k, w), w));
    }
  }

  lemma OneMore(cmds: seq<Command>, made: seq<Call>, m: Meaning)
    requires cmds != [] && |made| == 1 && made[0].argv == ArgvOf(cmds[0].word, cmds[0].args) && OneEach(cmds[1..], m)
    ensures OneEach(cmds, Meaning(made + m.calls, [Handled(Success)] + m.results))
  {
    var all := Meaning(made + m.calls, [Handled(Success)] + m.results);
    forall i | 0 <= i < |cmds|
      ensures all.calls[i].argv == ArgvOf(cmds[i].word, cmds[i].args) && all.results[i] == Handled(Success)
    {
      if i > 0 { assert cmds[i] == cmds[1..][i - 1]; }
    }
  }

  /** So a list of written commands is run from its first to its last command. */
  lemma ListIsRun(cmds: seq<Command>, w: World)
    requires Sensible(w) && cmds != [] && GoodList(cmds, ';') && AllKnown(cmds, w) && NothingFails(w)
    ensures var t := Run(ListText(cmds, ""), INITIAL, w);
            OneEach(cmds, Meaning(t.calls, t.results))
  {
    ListRuns(cmds, "", INITIAL, w);
    AllAreRun(cmds, ContextOf(INITIAL), w);
    assert INITIAL.calls + Means(cmds, ContextOf(INITIAL), w).calls == Means(cmds, ContextOf(INITIAL), w).calls;
  }
}
