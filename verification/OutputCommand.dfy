/** The output command: a loop over settings, each of which takes as many words as it
    understands and leaves the others to the next one. The compositor's outputs, and the
    conversion of a text to a floating-point number, are an environment. */
module OutputCommand {
  import opened Helpers
  import opened Numbers

  datatype Status = Success | Aborted | InvalidParameter | NotFound | OutOfResources

  datatype Key = Power | Scale | Transform | Position | Mode

  /** The map of setting handlers. */
  function KeyOf(word: string): Option<Key> {
    if word == "dpms" || word == "power" then Some(Power)
    else if word == "scale" then Some(Scale)
    else if word == "transform" then Some(Transform)
    else if word == "position" then Some(Position)
    else if word == "mode" then Some(Mode)
    else None
  }

  datatype Rotation = R0 | R90 | R180 | R270 | Flipped | Flipped90 | Flipped180 | Flipped270

  datatype OutputMode = OutputMode(width: int, height: int, refresh: real)

  /** The handle of an output: its transform and the modes it offers. */
  datatype Handle = Handle(transform: Rotation, modes: seq<OutputMode>)

  /** An output as the settings look at it. */
  datatype Output = Output(handle: Option<Handle>)

  /** What the environment answers during one setting: the output with a name or id,
      strtof, which gives the number and the rest of the text, and the composition of two
      transforms. */
  datatype Answers = Answers(
    output: string -> Option<Output>, strtof: string -> (real, string), compose: (Rotation, Rotation) -> Rotation)

  /** What a setting does. A power signal carries the output's name and all the words
      behind the key. */
  datatype Effect =
    | SignalPower(name: string, words: seq<string>)
    | SetScale(factor: real)
    | SetTransform(rotation: Rotation)
    | SetPosition(x: int, y: int)
    | SetMode(mode: OutputMode, custom: bool)

  /** Of the words behind its key a setting uses some, or is refused. Undefined is when
      nothing follows "--custom": the null pointer at the end of the vector is read as a
      number. */
  datatype Sub = Applied(used: nat, effect: Effect) | Refused(status: Status) | Undefined

  // ---------- The settings ----------

  function PowerSub(args: seq<string>, name: string): Sub {
    if args == [] then Refused(InvalidParameter) else Applied(1, SignalPower(name, args))
  }

  function ScaleSub(args: seq<string>, name: string, a: Answers): Sub {
    if args == [] then Refused(InvalidParameter)
    else
      var (factor, end) := a.strtof(args[0]);
      if end != "" then Refused(InvalidParameter)
      else if a.output(name).None? then Refused(Aborted)
      else Applied(1, SetScale(factor))
  }

  /** The transform named by a word. */
  function RotationOf(word: string): Option<Rotation> {
    if word == "normal" || word == "0" then Some(R0)
    else if word == "90" then Some(R90)
    else if word == "180" then Some(R180)
    else if word == "270" then Some(R270)
    else if word == "flipped" then Some(Flipped)
    else if word == "flipped-90" then Some(Flipped90)
    else if word == "flipped-180" then Some(Flipped180)
    else if word == "flipped-270" then Some(Flipped270)
    else None
  }

  function Invert(r: Rotation): Rotation {
    match r
    case R90 => R270
    case R270 => R90
    case Flipped90 => Flipped270
    case Flipped270 => Flipped90
    case _ => r
  }

  /** The direction named by a word: whether it is anticlockwise. */
  function DirectionOf(word: string): Option<bool> {
    if word == "clockwise" then Some(false) else if word == "anticlockwise" then Some(true) else None
  }

  function TransformSub(args: seq<string>, name: string, a: Answers): Sub {
    if args == [] then Refused(InvalidParameter)
    else match RotationOf(args[0])
      case None => Refused(InvalidParameter)
      case Some(r) =>
        if a.output(name).None? then Refused(Aborted)
        else if |args| == 1 || DirectionOf(args[1]).None? then Applied(1, SetTransform(Invert(r)))
        else if name == "*" then Refused(InvalidParameter)
        else match a.output(name).value.handle
          case None => Refused(Aborted)
          case Some(handle) =>
            var turned := if DirectionOf(args[1]).value then Invert(Invert(r)) else Invert(r);
            Applied(2, SetTransform(a.compose(handle.transform, turned)))
  }

  /** Two numbers in one word with a separator, or in two words; and the rest of the word
      behind the second number. */
  datatype Pair = Pair(first: int, second: int, used: nat, end: string) | NoPair

  function TwoNumbers(args: seq<string>, separator: char): Pair
    requires args != []
  {
    var (x, end) := Strtol(args[0]);
    if end != "" then
      if end[0] != separator then NoPair
      else
        var (y, rest) := Strtol(end[1..]);
        Pair(Int32(x), Int32(y), 1, rest)
    else if |args| == 1 then NoPair
    else
      var (y, rest) := Strtol(args[1]);
      if rest != "" then NoPair else Pair(Int32(x), Int32(y), 2, "")
  }

  function PositionSub(args: seq<string>, name: string, a: Answers): Sub {
    if args == [] then Refused(InvalidParameter)
    else match TwoNumbers(args, ',')
      case NoPair => Refused(InvalidParameter)
      case Pair(x, y, used, end) =>
        if end != "" then Refused(InvalidParameter)
        else if a.output(name).None? then Refused(Aborted)
        else Applied(used, SetPosition(x, y))
  }

  /** strcasecmp with "Hz". */
  predicate IsHertz(s: string) {
    |s| == 2 && (s[0] == 'H' || s[0] == 'h') && (s[1] == 'Z' || s[1] == 'z')
  }

  /** The refresh rate behind the height: -1 stands for none. */
  function Refresh(end: string, a: Answers): Option<real> {
    if end == "" then Some(-1.0)
    else if end[0] != '@' then None
    else
      var (rate, rest) := a.strtof(end[1..]);
      if IsHertz(rest) then Some(rate) else None
  }

  /** The first of the output's modes with a size and, if one is given, a refresh rate. */
  function FindMode(modes: seq<OutputMode>, wanted: OutputMode): Option<OutputMode> {
    if modes == [] then None
    else if MatchesMode(modes[0], wanted) then Some(modes[0])
    else FindMode(modes[1..], wanted)
  }

  predicate MatchesMode(m: OutputMode, wanted: OutputMode) {
    (wanted.refresh == -1.0 || wanted.refresh == m.refresh) && m.height == wanted.height && m.width == wanted.width
  }

  const CUSTOM := "--custom"

  function ModeSub(args: seq<string>, name: string, a: Answers): Sub {
    if args == [] then Refused(InvalidParameter)
    else if args[0] != CUSTOM then SizedMode(args, name, a, false)
    else if |args| == 1 then Undefined
    else match SizedMode(args[1..], name, a, true)
      case Applied(used, effect) => Applied(used + 1, effect)
      case refused => refused
  }

  function SizedMode(args: seq<string>, name: string, a: Answers, custom: bool): Sub
    requires args != []
  {
    match TwoNumbers(args, 'x')
    case NoPair => Refused(InvalidParameter)
    case Pair(width, height, used, end) =>
      match Refresh(end, a)
      case None => Refused(InvalidParameter)
      case Some(rate) =>
        if a.output(name).None? || a.output(name).value.handle.None? then Refused(Aborted)
        else if custom then Applied(used, SetMode(OutputMode(width, height, rate), true))
        else match FindMode(a.output(name).value.handle.value.modes, OutputMode(width, height, rate))
          case None => Refused(Aborted)
          case Some(mode) => Applied(used, SetMode(mode, false))
  }

  function SubOf(key: Key, args: seq<string>, name: string, a: Answers): Sub {
    match key
    case Power => PowerSub(args, name)
    case Scale => ScaleSub(args, name, a)
    case Transform => TransformSub(args, name, a)
    case Position => PositionSub(args, name, a)
    case Mode => ModeSub(args, name, a)
  }

  /** The setting at the front of some words: its handler is called with the words behind
      the key. The words it uses up include the key. */
  function SettingAt(words: seq<string>, name: string, a: Answers): Sub
    requires words != []
  {
    match KeyOf(words[0])
    case None => Refused(NotFound)
    case Some(key) => IncludeKey(SubOf(key, words[1..], name, a))
  }

  function IncludeKey(sub: Sub): Sub {
    if sub.Applied? then sub.(used := sub.used + 1) else sub
  }

  // ---------- The loop ----------

  /** The handlers as the loop uses them; handle also gets the number of settings that
      were applied before. */
  datatype Handlers = Handlers(isKey: string -> bool, dangling: seq<string>, handle: (nat, seq<string>) -> Sub)

  /** The words behind which a handler reads on. */
  const DANGLING: seq<string> := ["mode", CUSTOM]

  function TheHandlers(name: string, w: nat -> Answers): Handlers {
    Handlers(word => KeyOf(word).Some?, DANGLING,
             (i: nat, words: seq<string>) => if words == [] then Refused(NotFound) else SettingAt(words, name, w(i)))
  }

  /** A handler that succeeds uses one to three words behind a key; "mode" with nothing but
      "--custom" behind it, and only that, makes one read on. */
  ghost predicate Sane(h: Handlers) {
    forall i: nat, words: seq<string> :: words != [] ==> SaneAt(h, words, h.handle(i, words))
  }

  predicate SaneAt(h: Handlers, words: seq<string>, sub: Sub)
    requires words != []
  {
    match sub
    case Applied(used, _) => 2 <= used <= 4 && used <= |words| && h.isKey(words[0])
    case Refused(status) => status != Success
    case Undefined => words == h.dangling
  }

  /** A setting that was applied: the words it consists of and what it did. */
  datatype Setting = Setting(words: seq<string>, effect: Effect)

  datatype Ended = Finished(status: Status, applied: seq<Setting>) | Fell(applied: seq<Setting>)

  /** All settings, from some words on. */
  function Run(words: seq<string>, h: Handlers, done: seq<Setting>): Ended
    requires Sane(h)
    decreases |words|
  {
    if words == [] then Finished(Success, done)
    else
      assert SaneAt(h, words, h.handle(|done|, words));
      match h.handle(|done|, words)
      case Undefined => Fell(done)
      case Refused(status) => Finished(status, done)
      case Applied(used, effect) => Run(words[used..], h, done + [Setting(words[..used], effect)])
  }

  /** The words of some settings. */
  function Words(settings: seq<Setting>): seq<string> {
    if settings == [] then [] else Words(settings[..|settings| - 1]) + settings[|settings| - 1].words
  }

  predicate WellFormed(s: Setting, h: Handlers) {
    2 <= |s.words| <= 4 && h.isKey(s.words[0])
  }

  predicate AllWellFormed(settings: seq<Setting>, h: Handlers) {
    forall i :: 0 <= i < |settings| ==> WellFormed(settings[i], h)
  }

  lemma AddSetting(done: seq<Setting>, words: seq<string>, n: nat, effect: Effect, h: Handlers)
    requires AllWellFormed(done, h) && 2 <= n <= 4 && n <= |words| && h.isKey(words[0])
    ensures var more := done + [Setting(words[..n], effect)];
            AllWellFormed(more, h) && Words(more) + words[n..] == Words(done) + words
  {
    var more := done + [Setting(words[..n], effect)];
    assert more[..|done|] == done;
    assert words == words[..n] + words[n..];
    Concatenation(Words(done), words[..n], words[n..]);
  }

  lemma {:induction false} RunConserves(words: seq<string>, h: Handlers, done: seq<Setting>)
    requires Sane(h) && AllWellFormed(done, h)
    ensures var r := Run(words, h, done);
            && AllWellFormed(r.applied, h) && done <= r.applied
            && Words(r.applied) <= Words(done) + words
            && (r == Finished(Success, r.applied) <==> Words(r.applied) == Words(done) + words)
    decreases |words|
  {
    if words == [] {
      assert Words(done) + words == Words(done);
    } else {
      var sub := h.handle(|done|, words);
      assert SaneAt(h, words, sub);
      if sub.Applied? {
        AddSetting(done, words, sub.used, sub.effect, h);
        RunConserves(words[sub.used..], h, done + [Setting(words[..sub.used], sub.effect)]);
      }
    }
  }

  lemma SettingsAreSane(words: seq<string>, name: string, a: Answers)
    requires words != []
    ensures match SettingAt(words, name, a)
            case Applied(used, _) => 2 <= used <= 4 && used <= |words| && KeyOf(words[0]).Some?
            case Refused(status) => status != Success
            case Undefined => words == DANGLING
  {
    if KeyOf(words[0]).Some? {
      SubsAreSane(KeyOf(words[0]).value, words[1..], name, a);
      ModeIsMode(words[0]);
    }
  }

  lemma ModeIsMode(word: string)
    ensures KeyOf(word) == Some(Mode) ==> word == "mode"
  {
  }

  lemma SubsAreSane(key: Key, args: seq<string>, name: string, a: Answers)
    ensures match SubOf(key, args, name, a)
            case Applied(used, _) => 1 <= used <= 3 && used <= |args|
            case Refused(status) => status != Success
            case Undefined => key.Mode? && args == [CUSTOM]
  {
  }

  lemma TheHandlersAreSane(name: string, w: nat -> Answers)
    ensures Sane(TheHandlers(name, w))
  {
    var h := TheHandlers(name, w);
    forall i: nat, words: seq<string> | words != [] ensures SaneAt(h, words, h.handle(i, words)) {
      SettingsAreSane(words, name, w(i));
    }
  }

  /** The settings that were applied are, in order and without gaps, the words behind the
      output's name: all of them exactly if the command succeeds. */
  lemma SettingsPartitionTheWords(words: seq<string>, name: string, w: nat -> Answers)
    ensures var h := TheHandlers(name, w);
            && Sane(h)
            && var r := Run(words, h, []);
            && AllWellFormed(r.applied, h) && Words(r.applied) <= words
            && (r == Finished(Success, r.applied) <==> Words(r.applied) == words)
  {
    assert [] + words == words;
    TheHandlersAreSane(name, w);
    RunConserves(words, TheHandlers(name, w), []);
  }

  // ---------- Two groups of settings ----------

  /** Effects are alike if they are the same, but for the words that follow the first one
      in a power signal. */
  predicate Alike(e: Effect, f: Effect) {
    || e == f
    || (e.SignalPower? && f.SignalPower? && e.name == f.name
        && e.words != [] && f.words != [] && e.words[0] == f.words[0])
  }

  predicate AllAlike(s: seq<Setting>, t: seq<Setting>) {
    |s| == |t| && forall i :: 0 <= i < |s| ==> s[i].words == t[i].words && Alike(s[i].effect, t[i].effect)
  }

  predicate EndAlike(r: Ended, q: Ended) {
    r.Fell? == q.Fell? && (r.Finished? ==> r.status == q.status) && AllAlike(r.applied, q.applied)
  }

  predicate SubAlike(sub: Sub, joined: Sub) {
    sub.Applied? ==> joined.Applied? && joined.used == sub.used && Alike(joined.effect, sub.effect)
  }

  /** A handler that succeeds does not look at the words of the next setting. */
  ghost predicate Local(h: Handlers) {
    forall i: nat, words: seq<string>, next: seq<string> ::
      words != [] && (next != [] ==> h.isKey(next[0])) ==> SubAlike(h.handle(i, words), h.handle(i, words + next))
  }

  /** No key is a direction. */
  lemma KeysAreNoDirections(word: string)
    requires KeyOf(word).Some?
    ensures DirectionOf(word).None?
  {
    assert |"anticlockwise"| == 13 && "clockwise"[0] == 'c';
  }

  lemma SubsAreLocal(key: Key, args: seq<string>, next: seq<string>, name: string, a: Answers)
    requires next != [] ==> KeyOf(next[0]).Some?
    ensures SubAlike(SubOf(key, args, name, a), SubOf(key, args + next, name, a))
  {
    if SubOf(key, args, name, a).Applied? {
      match key
      case Power =>
      case Scale =>
      case Transform => if next != [] { KeysAreNoDirections(next[0]); }
      case Position => NumbersAreLocal(args, next, ',');
      case Mode =>
        if args[0] == CUSTOM {
          assert (args + next)[1..] == args[1..] + next;
          NumbersAreLocal(args[1..], next, 'x');
        } else {
          NumbersAreLocal(args, next, 'x');
        }
    }
  }

  lemma NumbersAreLocal(args: seq<string>, next: seq<string>, separator: char)
    requires args != []
    ensures TwoNumbers(args, separator).Pair? ==> TwoNumbers(args + next, separator) == TwoNumbers(args, separator)
  {
  }

  lemma SettingsAreLocal(words: seq<string>, next: seq<string>, name: string, a: Answers)
    requires words != [] && (next != [] ==> KeyOf(next[0]).Some?)
    ensures SubAlike(SettingAt(words, name, a), SettingAt(words + next, name, a))
  {
    if KeyOf(words[0]).Some? {
      assert (words + next)[1..] == words[1..] + next;
      SubsAreLocal(KeyOf(words[0]).value, words[1..], next, name, a);
    }
  }

  lemma TheHandlersAreLocal(name: string, w: nat -> Answers)
    ensures Local(TheHandlers(name, w))
  {
    var h := TheHandlers(name, w);
    forall i: nat, words: seq<string>, next: seq<string> | words != [] && (next != [] ==> h.isKey(next[0]))
      ensures SubAlike(h.handle(i, words), h.handle(i, words + next))
    {
      SettingsAreLocal(words, next, name, w(i));
    }
  }

  lemma {:induction false} RunAlike(words: seq<string>, h: Handlers, s: seq<Setting>, t: seq<Setting>)
    requires Sane(h) && AllAlike(s, t)
    ensures EndAlike(Run(words, h, s), Run(words, h, t))
    decreases |words|
  {
    if words != [] {
      var sub := h.handle(|s|, words);
      assert SaneAt(h, words, sub);
      if sub.Applied? {
        var more := Setting(words[..sub.used], sub.effect);
        RunAlike(words[sub.used..], h, s + [more], t + [more]);
      }
    }
  }

  lemma {:induction false} RunComposes(a: seq<string>, b: seq<string>, h: Handlers, s: seq<Setting>, t: seq<Setting>)
    requires Sane(h) && Local(h) && AllAlike(s, t) && (b != [] ==> h.isKey(b[0]))
    requires Run(a, h, t).Finished? && Run(a, h, t).status == Success
    ensures EndAlike(Run(a + b, h, s), Run(b, h, Run(a, h, t).applied))
    decreases |a|
  {
    if a == [] {
      assert a + b == b;
      RunAlike(b, h, s, t);
    } else {
      var sub, joined := h.handle(|t|, a), h.handle(|t|, a + b);
      assert SaneAt(h, a, sub) && SubAlike(sub, joined);
      var n := sub.used;
      assert (a + b)[..n] == a[..n] && (a + b)[n..] == a[n..] + b;
      RunComposes(a[n..], b, h, s + [Setting(a[..n], joined.effect)], t + [Setting(a[..n], sub.effect)]);
    }
  }

  // ---------- When a handler reads on ----------

  /** A handler that succeeds does so as well if all words behind those it uses are gone. */
  ghost predicate Tight(h: Handlers) {
    forall i: nat, words: seq<string>, m: nat ::
      words != [] && 0 < m <= |words| && h.handle(i, words).Applied? && h.handle(i, words).used <= m ==>
        SubAlike(h.handle(i, words), h.handle(i, words[..m]))
  }

  /** And the dangling words make one read on, whenever they come. */
  ghost predicate Falls(h: Handlers) {
    |h.dangling| == 2 && h.isKey(h.dangling[0]) && forall i: nat :: h.handle(i, h.dangling).Undefined?
  }

  lemma NumbersAreTight(args: seq<string>, separator: char, m: nat)
    requires 0 < m <= |args|
    ensures TwoNumbers(args, separator).Pair? && TwoNumbers(args, separator).used <= m ==>
              TwoNumbers(args[..m], separator) == TwoNumbers(args, separator)
  {
  }

  lemma SubsAreTight(key: Key, args: seq<string>, name: string, a: Answers, m: nat)
    requires m <= |args| && SubOf(key, args, name, a).Applied? && SubOf(key, args, name, a).used <= m
    ensures SubAlike(SubOf(key, args, name, a), SubOf(key, args[..m], name, a))
  {
    SubsAreSane(key, args, name, a);
    match key
    case Power =>
    case Scale =>
    case Transform =>
    case Position => NumbersAreTight(args, ',', m);
    case Mode =>
      if args[0] == CUSTOM {
        assert args[..m][1..] == args[1..][..m - 1];
        NumbersAreTight(args[1..], 'x', m - 1);
      } else {
        NumbersAreTight(args, 'x', m);
      }
  }

  lemma SettingsAreTight(words: seq<string>, name: string, a: Answers, m: nat)
    requires words != [] && 0 < m <= |words|
    requires SettingAt(words, name, a).Applied? && SettingAt(words, name, a).used <= m
    ensures SubAlike(SettingAt(words, name, a), SettingAt(words[..m], name, a))
  {
    assert words[..m][1..] == words[1..][..m - 1];
    SubsAreTight(KeyOf(words[0]).value, words[1..], name, a, m - 1);
  }

  lemma TheHandlersAreTight(name: string, w: nat -> Answers)
    ensures Tight(TheHandlers(name, w))
  {
    var h := TheHandlers(name, w);
    forall i: nat, words: seq<string>, m: nat
      | words != [] && 0 < m <= |words| && h.handle(i, words).Applied? && h.handle(i, words).used <= m
      ensures SubAlike(h.handle(i, words), h.handle(i, words[..m]))
    {
      SettingsAreTight(words, name, w(i), m);
    }
  }

  lemma TheHandlersFall(name: string, w: nat -> Answers)
    ensures Falls(TheHandlers(name, w))
  {
    var h := TheHandlers(name, w);
    assert KeyOf("mode") == Some(Mode) && DANGLING[1..] == [CUSTOM];
    forall i: nat ensures h.handle(i, h.dangling).Undefined? {
      assert h.handle(i, DANGLING) == SettingAt(DANGLING, name, w(i)) == Undefined;
    }
  }

  /** The words in front of the last two. */
  function Front(words: seq<string>): seq<string>
    requires |words| >= 2
  {
    words[..|words| - 2]
  }

  ghost predicate FallsAtTheEnd(words: seq<string>, h: Handlers, done: seq<Setting>)
    requires Sane(h)
  {
    && |words| >= 2 && words[|words| - 2..] == h.dangling
    && Run(Front(words), h, done).Finished? && Run(Front(words), h, done).status == Success
  }

  lemma {:induction false} FallIsAtTheEnd(words: seq<string>, h: Handlers, s: seq<Setting>, t: seq<Setting>)
    requires Sane(h) && Tight(h) && Falls(h) && AllAlike(s, t) && Run(words, h, s).Fell?
    ensures FallsAtTheEnd(words, h, t)
    decreases |words|
  {
    var sub := h.handle(|s|, words);
    assert SaneAt(h, words, sub);
    if sub.Undefined? {
      assert words[|words| - 2..] == words && Front(words) == [];
    } else {
      var n, rest := sub.used, words[sub.used..];
      var s1, t1 := s + [Setting(words[..n], sub.effect)], t + [Setting(words[..n], sub.effect)];
      FallIsAtTheEnd(rest, h, s1, t1);
      assert rest[|rest| - 2..] == words[|words| - 2..];
      var m := |words| - 2;
      var front := words[..m];
      var part := h.handle(|t|, front);
      assert SubAlike(h.handle(|s|, words), h.handle(|s|, words[..m]));
      assert SaneAt(h, front, part);
      assert front[..n] == words[..n] && front[n..] == Front(rest);
      var t2 := t + [Setting(words[..n], part.effect)];
      RunAlike(Front(rest), h, t1, t2);
    }
  }

  /** The exact condition: the command reads on if and only if the last two words are
      "mode" and "--custom" and the words in front of them succeed. */
  lemma ReadsOnIff(words: seq<string>, name: string, w: nat -> Answers)
    ensures var h := TheHandlers(name, w);
            Sane(h) && (Run(words, h, []).Fell? <==> FallsAtTheEnd(words, h, []))
  {
    var h := TheHandlers(name, w);
    TheHandlersAreSane(name, w);
    TheHandlersAreLocal(name, w);
    TheHandlersAreTight(name, w);
    TheHandlersFall(name, w);
    if Run(words, h, []).Fell? {
      FallIsAtTheEnd(words, h, [], []);
    }
    if FallsAtTheEnd(words, h, []) {
      var front := Front(words);
      var end := words[|words| - 2..];
      var applied := Run(front, h, []).applied;
      assert words == front + end && end[0] == h.dangling[0];
      RunComposes(front, end, h, [], []);
      assert h.handle(|applied|, end).Undefined?;
    }
  }

  /** Settings that succeed, followed by others that start with a key, do what the two
      groups do one after the other; only power signals tell the words behind them. */
  lemma GroupsCompose(a: seq<string>, b: seq<string>, name: string, w: nat -> Answers)
    requires b != [] ==> KeyOf(b[0]).Some?
    ensures var h := TheHandlers(name, w);
            && Sane(h)
            && var r := Run(a, h, []);
            (r.Finished? && r.status == Success ==> EndAlike(Run(a + b, h, []), Run(b, h, r.applied)))
  {
    var h := TheHandlers(name, w);
    TheHandlersAreSane(name, w);
    TheHandlersAreLocal(name, w);
    if Run(a, h, []).Finished? && Run(a, h, []).status == Success {
      RunComposes(a, b, h, [], []);
    }
  }

  // ---------- output_handler with its context ----------

  /** The words left over: how many, and where they start in the argument vector. */
  datatype Leftovers = Leftovers(argc: int, argv: Option<nat>)

  const NO_LEFTOVERS := Leftovers(0, None)

  /** The part of the handlers' context that this command uses: output_config is its name. */
  class CommandHandlerContext {
    var outputConfig: Option<string>
    var leftovers: Leftovers

    constructor ()
      ensures outputConfig == None && leftovers == NO_LEFTOVERS
    {
      outputConfig, leftovers := None, NO_LEFTOVERS;
    }

    ghost predicate Clean()
      reads this
    {
      outputConfig == None && leftovers == NO_LEFTOVERS
    }

    method Cleanup()
      modifies this
      ensures Clean()
    {
      outputConfig := None;
      leftovers := NO_LEFTOVERS;
    }

    /** What a handler did, on the words from argv on: the status is absent if it read
        behind the end. */
    ghost predicate Handled(sub: Sub, argc: int, argv: nat, status: Option<Status>, effect: Option<Effect>)
      reads this
    {
      match sub
      case Undefined => status == None
      case Refused(s) => status == Some(s) && effect == None
      case Applied(used, e) =>
        status == Some(Success) && effect == Some(e) && leftovers == Leftovers(argc - used, Some(argv + used))
    }

    method HandlePower(words: seq<string>, argc: int, argv: nat)
      returns (status: Option<Status>, effect: Option<Effect>)
      requires argv <= |words| && argc == |words| - argv
      modifies this`leftovers
      ensures outputConfig.None? ==> status == Some(Aborted) && effect == None && leftovers == old(leftovers)
      ensures outputConfig.Some? ==> Handled(PowerSub(words[argv..], outputConfig.value), argc, argv, status, effect)
    {
      if outputConfig.None? {
        return Some(Aborted), None;
      }
      if argc == 0 {
        return Some(InvalidParameter), None;
      }
      var args := [];
      for i := 0 to argc
        invariant args == words[argv..argv + i]
      {
        args := args + [words[argv + i]];
      }
      assert args == words[argv..];
      leftovers := Leftovers(argc - 1, Some(argv + 1));
      return Some(Success), Some(SignalPower(outputConfig.value, args));
    }

    method HandleScale(words: seq<string>, argc: int, argv: nat, a: Answers)
      returns (status: Option<Status>, effect: Option<Effect>)
      requires argv <= |words| && argc == |words| - argv
      modifies this`leftovers
      ensures outputConfig.None? ==> status == Some(Aborted) && effect == None && leftovers == old(leftovers)
      ensures outputConfig.Some? ==> Handled(ScaleSub(words[argv..], outputConfig.value, a), argc, argv, status, effect)
    {
      if outputConfig.None? {
        return Some(Aborted), None;
      }
      if argc == 0 {
        return Some(InvalidParameter), None;
      }
      var (scale, end) := a.strtof(words[argv]);
      if end != "" {
        return Some(InvalidParameter), None;
      }
      if a.output(outputConfig.value).None? {
        return Some(Aborted), None;
      }
      leftovers := Leftovers(argc - 1, Some(argv + 1));
      return Some(Success), Some(SetScale(scale));
    }

    method HandleTransform(words: seq<string>, argc: int, argv: nat, a: Answers)
      returns (status: Option<Status>, effect: Option<Effect>)
      requires argv <= |words| && argc == |words| - argv
      modifies this`leftovers
      ensures outputConfig.None? ==> status == Some(Aborted) && effect == None && leftovers == old(leftovers)
      ensures outputConfig.Some? ==>
                Handled(TransformSub(words[argv..], outputConfig.value, a), argc, argv, status, effect)
    {
      if outputConfig.None? {
        return Some(Aborted), None;
      }
      if argc == 0 {
        return Some(InvalidParameter), None;
      }
      var rotation := RotationOf(words[argv]);
      if rotation.None? {
        return Some(InvalidParameter), None;
      }
      var transform := Invert(rotation.value);
      var output := a.output(outputConfig.value);
      if output.None? {
        return Some(Aborted), None;
      }
      leftovers := Leftovers(argc - 1, Some(argv + 1));
      if argc > 1 && DirectionOf(words[argv + 1]).Some? {
        if outputConfig.value == "*" {
          return Some(InvalidParameter), None;
        }
        if DirectionOf(words[argv + 1]).value {
          transform := Invert(transform);
        }
        if output.value.handle.None? {
          return Some(Aborted), None;
        }
        transform := a.compose(output.value.handle.value.transform, transform);
        leftovers := Leftovers(leftovers.argc - 1, Some(leftovers.argv.value + 1));
      }
      return Some(Success), Some(SetTransform(transform));
    }

    method HandlePosition(words: seq<string>, argc0: int, argv0: nat, a: Answers)
      returns (status: Option<Status>, effect: Option<Effect>)
      requires argv0 <= |words| && argc0 == |words| - argv0
      modifies this`leftovers
      ensures outputConfig.None? ==> status == Some(Aborted) && effect == None && leftovers == old(leftovers)
      ensures outputConfig.Some? ==>
                Handled(PositionSub(words[argv0..], outputConfig.value, a), argc0, argv0, status, effect)
    {
      if outputConfig.None? {
        return Some(Aborted), None;
      }
      var argc, argv := argc0, argv0;
      if argc == 0 {
        return Some(InvalidParameter), None;
      }
      var x, y := Strtol(words[argv]), (0, "");
      if x.1 != "" {
        // both coordinates are in this word, with a comma between them
        if x.1[0] != ',' {
          return Some(InvalidParameter), None;
        }
        y := Strtol(x.1[1..]);
      } else {
        // the second coordinate is the next word
        argc, argv := argc - 1, argv + 1;
        if argc == 0 {
          return Some(InvalidParameter), None;
        }
        y := Strtol(words[argv]);
      }
      if y.1 != "" {
        return Some(InvalidParameter), None;
      }
      if a.output(outputConfig.value).None? {
        return Some(Aborted), None;
      }
      leftovers := Leftovers(argc - 1, Some(argv + 1));
      return Some(Success), Some(SetPosition(Int32(x.0), Int32(y.0)));
    }

    /** The search through the modes of an output. */
    method SelectMode(modes: seq<OutputMode>, wanted: OutputMode) returns (mode: Option<OutputMode>)
      ensures mode == FindMode(modes, wanted)
    {
      for i := 0 to |modes|
        invariant FindMode(modes[i..], wanted) == FindMode(modes, wanted)
      {
        if MatchesMode(modes[i], wanted) {
          return Some(modes[i]);
        }
        assert modes[i..][1..] == modes[i + 1..];
      }
      return None;
    }

    /** The handler for modes, behind "--custom" if it was there. */
    method HandleSizedMode(words: seq<string>, argc0: int, argv0: nat, name: string, a: Answers, custom: bool)
      returns (status: Option<Status>, effect: Option<Effect>)
      requires argv0 < |words| && argc0 == |words| - argv0
      modifies this`leftovers
      ensures Handled(SizedMode(words[argv0..], name, a, custom), argc0, argv0, status, effect)
    {
      var argc, argv := argc0, argv0;
      var width, height := Strtol(words[argv]), (0, "");
      var refresh := -1.0;
      if width.1 != "" {
        // width and height are in this word, perhaps with a refresh rate behind them
        if width.1[0] != 'x' {
          return Some(InvalidParameter), None;
        }
        height := Strtol(width.1[1..]);
        if height.1 != "" {
          if height.1[0] != '@' {
            return Some(InvalidParameter), None;
          }
          var (rate, end) := a.strtof(height.1[1..]);
          if !IsHertz(end) {
            return Some(InvalidParameter), None;
          }
          refresh := rate;
        }
      } else {
        // the height is the next word
        argc, argv := argc - 1, argv + 1;
        if argc == 0 {
          return Some(InvalidParameter), None;
        }
        height := Strtol(words[argv]);
        if height.1 != "" {
          return Some(InvalidParameter), None;
        }
      }
      var output := a.output(name);
      if output.None? || output.value.handle.None? {
        return Some(Aborted), None;
      }
      var mode := Some(OutputMode(Int32(width.0), Int32(height.0), refresh));
      if !custom {
        mode := SelectMode(output.value.handle.value.modes, mode.value);
        if mode.None? {
          return Some(Aborted), None;
        }
      }
      leftovers := Leftovers(argc - 1, Some(argv + 1));
      return Some(Success), Some(SetMode(mode.value, custom));
    }

    method HandleMode(words: seq<string>, argc: int, argv: nat, a: Answers)
      returns (status: Option<Status>, effect: Option<Effect>)
      requires argv <= |words| && argc == |words| - argv
      modifies this`leftovers
      ensures outputConfig.None? ==> status == Some(Aborted) && effect == None && leftovers == old(leftovers)
      ensures outputConfig.Some? ==> Handled(ModeSub(words[argv..], outputConfig.value, a), argc, argv, status, effect)
    {
      if outputConfig.None? {
        return Some(Aborted), None;
      }
      var name := outputConfig.value;
      if argc == 0 {
        return Some(InvalidParameter), None;
      }
      if words[argv] == CUSTOM {
        if argc == 1 {
          return None, None;
        }
        assert words[argv..][1..] == words[argv + 1..];
        status, effect := HandleSizedMode(words, argc - 1, argv + 1, name, a, true);
      } else {
        status, effect := HandleSizedMode(words, argc, argv, name, a, false);
      }
    }

    /** Looks up the handler for words[argv] and calls it with the words behind. */
    method Handle(words: seq<string>, argc: int, argv: nat, a: Answers)
      returns (status: Option<Status>, effect: Option<Effect>)
      requires argv < |words| && argc == |words| - argv && outputConfig.Some?
      modifies this`leftovers
      ensures Handled(SettingAt(words[argv..], outputConfig.value, a), argc, argv, status, effect)
    {
      var key := KeyOf(words[argv]);
      ghost var args := words[argv..][1..];
      assert args == words[argv + 1..];
      match key {
        case None => status, effect := Some(NotFound), None;
        case Some(Power) => status, effect := HandlePower(words, argc - 1, argv + 1);
        case Some(Scale) => status, effect := HandleScale(words, argc - 1, argv + 1, a);
        case Some(Transform) => status, effect := HandleTransform(words, argc - 1, argv + 1, a);
        case Some(Position) => status, effect := HandlePosition(words, argc - 1, argv + 1, a);
        case Some(Mode) => status, effect := HandleMode(words, argc - 1, argv + 1, a);
      }
    }

    /** output_handler; granted says whether the allocation of the output's configuration
        succeeds. On both exits that the loop reaches the context is clean. */
    method OutputHandler(words: seq<string>, granted: bool, w: nat -> Answers)
      returns (status: Option<Status>, applied: seq<Setting>)
      requires Clean()
      modifies this
      ensures if words == [] then status == Some(InvalidParameter) && applied == []
              else if !granted then status == Some(OutOfResources) && applied == []
              else
                var h := TheHandlers(words[0], w);
                Sane(h) &&
                match Run(words[1..], h, [])
                case Fell(done) => status == None && applied == done
                case Finished(s, done) => status == Some(s) && applied == done
      ensures status.Some? ==> Clean()
    {
      applied := [];
      if words == [] {
        return Some(InvalidParameter), [];
      }
      if !granted {
        return Some(OutOfResources), [];
      }
      outputConfig := Some(words[0]);
      ghost var h := TheHandlers(words[0], w);
      TheHandlersAreSane(words[0], w);
      var argc, argv := |words| - 1, 1;
      while argc > 0
        invariant 1 <= argv <= |words| && argc == |words| - argv && outputConfig == Some(words[0])
        invariant Run(words[argv..], h, applied) == Run(words[1..], h, [])
        decreases argc
      {
        leftovers := NO_LEFTOVERS;
        var effect;
        ghost var rest := words[argv..];
        ghost var sub := h.handle(|applied|, rest);
        assert SaneAt(h, rest, sub);
        status, effect := Handle(words, argc, argv, w(|applied|));
        if status.None? {
          return;
        }
        if status != Some(Success) {
          Cleanup();
          return;
        }
        var next := leftovers.argv.value;
        assert rest[..sub.used] == words[argv..next] && rest[sub.used..] == words[next..];
        applied := applied + [Setting(words[argv..next], effect.value)];
        argc, argv := leftovers.argc, next;
      }
      Cleanup();
      return Some(Success), applied;
    }
  }
}
