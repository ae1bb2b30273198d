/** The three automata together: how execute_command turns the text of one command
    into arguments, and that quoting an argument protects it from all of them. */
module CommandLine {
  import opened Helpers
  import opened Text
  import A = ArgSep
  import S = SplitArgs
  import Q = StripQuotes

  /** The delimiters of a command list. */
  const DELIMITERS: string := ";,"

  /** Commands whose arguments keep their quotes. */
  predicate KeepsQuotes(word: string) {
    word == "exec" || word == "exec_always" || word == "mode"
  }

  predicate StartsQuoted(arg: string) {
    arg != [] && (arg[0] == '"' || arg[0] == '\'')
  }

  function Unquoted(arg: string): string {
    if StartsQuoted(arg) then Q.Strip(arg, Q.CLEAR) else arg
  }

  function UnquoteAll(args: seq<string>): seq<string> {
    seq(|args|, i requires 0 <= i < |args| => Unquoted(args[i]))
  }

  /** The argument vector that a handler is looked up with and called with. */
  function Argv(command: string): seq<string> {
    var args := S.Split(command);
    if args == [] || KeepsQuotes(args[0]) then args else [args[0]] + UnquoteAll(args[1..])
  }

  /** strip_quotes on a heap copy of one argument. */
  method UnquoteArg(arg: string) returns (r: string)
    requires NUL !in arg
    ensures r == Unquoted(arg)
  {
    if !StartsQuoted(arg) {
      return arg;
    }
    var buffer := new char[|arg| + 1](i requires 0 <= i <= |arg| => if i < |arg| then arg[i] else NUL);
    assert buffer[..][..|arg|] == arg;
    CStrIs(buffer[..], |arg|);
    assert buffer[..][|arg|] == NUL;
    Q.StripQuotes(buffer);
    return CStr(buffer[..]);
  }

  /** The part of execute_command that makes the argument vector. */
  method ParseCommand(command: string) returns (argv: seq<string>)
    requires NUL !in command
    ensures argv == Argv(command)
  {
    var vector, argc := S.SplitArgs(Some(command));
    ghost var args := S.Split(command);
    ArgumentsHaveNoNul(command);
    argv := seq(argc, i requires 0 <= i < argc && vector[i].Some? reads vector => vector[i].value);
    assert argv == args;
    if argc > 0 && !KeepsQuotes(argv[0]) {
      for i := 1 to argc
        invariant |argv| == argc
        invariant forall j :: 0 <= j < argc ==> argv[j] == if 1 <= j < i then Unquoted(args[j]) else args[j]
      {
        var unquoted := UnquoteArg(argv[i]);
        argv := argv[i := unquoted];
      }
      assert argv == [args[0]] + UnquoteAll(args[1..]);
    }
  }

  lemma {:induction false} ArgumentsHaveNoNul(s: string)
    requires NUL !in s
    ensures forall i :: 0 <= i < |S.Split(s)| ==> NUL !in S.Split(s)[i]
    decreases |s|
  {
    var r := S.Trim(s);
    S.TrimSuffix(s);
    if r != [] {
      ArgumentsHaveNoNul(S.Behind(r));
    }
  }

  /** A command that is not blank has at least one argument, so the check of argc
      after argv[0] was used never fails. */
  lemma CommandHasAWord(command: string)
    requires command != [] && !IsSpace(command[0])
    ensures Argv(command) != [] && Argv(command)[0] == S.Split(command)[0]
  {
  }

  // ---------- Quoting ----------

  /** How a user writes an argument: as it is, or in quotes of one of the two kinds. */
  datatype Style = AsIs | InDouble | InSingle

  datatype Arg = Arg(text: string, style: Style)

  predicate IsQuote(q: char) {
    q == '"' || q == '\''
  }

  /** An argument that quotes protect: no such quote, backslash or NUL in it. It may be
      empty, and may hold white space, delimiters, brackets, quotes of the other kind. */
  predicate Plain(text: string, q: char) {
    q !in text && '\\' !in text && NUL !in text
  }

  function Quote(text: string, q: char): string {
    [q] + text + [q]
  }

  /** A command word, or an argument without quotes around it: split_args takes it as one
      argument that leaves nothing open, and argsep does not cut it. Quotes, brackets and
      escapes may be in it. */
  ghost predicate Word(w: string) {
    S.Argument(w) && S.Closed(w) && Passes(w, A.CLEAR, A.CLEAR)
  }

  /** Whether a style protects an argument. */
  ghost predicate Protected(arg: Arg) {
    match arg.style
    case AsIs => Word(arg.text) && !StartsQuoted(arg.text)
    case InDouble => Plain(arg.text, '"')
    case InSingle => Plain(arg.text, '\'')
  }

  ghost predicate AllProtected(args: seq<Arg>) {
    forall i :: 0 <= i < |args| ==> Protected(args[i])
  }

  function Written(arg: Arg): string {
    match arg.style
    case AsIs => arg.text
    case InDouble => Quote(arg.text, '"')
    case InSingle => Quote(arg.text, '\'')
  }

  function WrittenAll(args: seq<Arg>): seq<string> {
    seq(|args|, i requires 0 <= i < |args| => Written(args[i]))
  }

  function Texts(args: seq<Arg>): seq<string> {
    seq(|args|, i requires 0 <= i < |args| => args[i].text)
  }

  /** The line a user writes for a command with these arguments. */
  function Line(word: string, args: seq<Arg>): string {
    S.Join([word] + WrittenAll(args))
  }

  // split_args

  function InQuotes(q: char): S.Flags {
    S.Flags(q == '"', q == '\'', false, false)
  }

  lemma {:induction false} InsideQuotes(a: string, q: char)
    requires IsQuote(q) && Plain(a, q)
    ensures S.AfterAll(InQuotes(q), a) == InQuotes(q)
    ensures forall i :: 0 <= i < |a| ==> !S.Breaks(S.AfterAll(InQuotes(q), a[..i]), a[i])
  {
    if a != [] {
      InsideQuotes(a[1..], q);
      assert S.After(InQuotes(q), a[0]) == InQuotes(q);
      assert a[..0] == [];
      forall i | 0 <= i < |a|
        ensures !S.Breaks(S.AfterAll(InQuotes(q), a[..i]), a[i])
      {
        if i > 0 { assert a[..i][1..] == a[1..][..i - 1] && a[i] == a[1..][i - 1]; }
      }
    }
  }

  lemma QuoteOpens(q: char)
    requires IsQuote(q)
    ensures S.AfterAll(S.CLEAR, [q]) == InQuotes(q) && S.AfterAll(InQuotes(q), [q]) == S.CLEAR
  {
    assert [q][1..] == [];
  }

  lemma QuoteIsAnArgument(a: string, q: char)
    requires IsQuote(q) && Plain(a, q)
    ensures S.Argument(Quote(a, q)) && S.Closed(Quote(a, q))
  {
    var t := Quote(a, q);
    InsideQuotes(a, q);
    QuoteOpens(q);
    S.AfterAllConcat(S.CLEAR, [q], a);
    S.AfterAllConcat(S.CLEAR, [q] + a, [q]);
    forall i | 0 <= i < |t|
      ensures !S.Breaks(S.AfterAll(S.CLEAR, t[..i]), t[i])
    {
      if 0 < i < |t| - 1 {
        assert t[..i] == [q] + a[..i - 1] && t[i] == a[i - 1];
        S.AfterAllConcat(S.CLEAR, [q], a[..i - 1]);
      }
    }
  }

  lemma WrittenIsAnArgument(arg: Arg)
    requires Protected(arg)
    ensures S.Argument(Written(arg)) && S.Closed(Written(arg))
  {
    match arg.style
    case AsIs =>
    case InDouble => QuoteIsAnArgument(arg.text, '"');
    case InSingle => QuoteIsAnArgument(arg.text, '\'');
  }

  lemma LineIsSplit(word: string, args: seq<Arg>)
    requires Word(word) && AllProtected(args)
    ensures S.Split(Line(word, args)) == [word] + WrittenAll(args)
  {
    forall i | 0 <= i < |args|
      ensures S.Argument(Written(args[i])) && S.Closed(Written(args[i]))
    {
      WrittenIsAnArgument(args[i]);
    }
    S.SplitOfJoin([word] + WrittenAll(args));
  }

  // strip_quotes

  function StripFlags(q: char): Q.Flags {
    Q.Flags(q == '"', q == '\'', false)
  }

  lemma {:induction false} StripInside(a: string, q: char)
    requires IsQuote(q) && Plain(a, q)
    ensures Q.Strip(a + [q], StripFlags(q)) == a
  {
    if a == [] {
      assert (a + [q])[1..] == [];
    } else {
      assert (a + [q])[1..] == a[1..] + [q];
      assert Q.After(StripFlags(q), a[0]) == StripFlags(q);
      StripInside(a[1..], q);
    }
  }

  /** strip_quotes undoes the quotes of both kinds. */
  lemma UnquoteQuote(a: string, q: char)
    requires IsQuote(q) && Plain(a, q)
    ensures Unquoted(Quote(a, q)) == a
  {
    assert Quote(a, q)[1..] == a + [q];
    StripInside(a, q);
  }

  lemma UnquoteWritten(arg: Arg)
    requires Protected(arg)
    ensures Unquoted(Written(arg)) == arg.text
  {
    match arg.style
    case AsIs =>
    case InDouble => UnquoteQuote(arg.text, '"');
    case InSingle => UnquoteQuote(arg.text, '\'');
  }

  // argsep

  /** Reading a text from flags f leads to flags g without a cut on the way. */
  ghost predicate Passes(t: string, f: A.Flags, g: A.Flags) {
    if t == [] then f == g
    else !A.Ends(f, t[0], DELIMITERS) && Passes(t[1..], A.After(f, t[0], DELIMITERS), g)
  }

  lemma {:induction false} PassesConcat(t: string, u: string, f: A.Flags, g: A.Flags, h: A.Flags)
    requires Passes(t, f, g) && Passes(u, g, h)
    ensures Passes(t + u, f, h)
    decreases t
  {
    if t == [] {
      assert t + u == u;
    } else {
      assert (t + u)[1..] == t[1..] + u;
      PassesConcat(t[1..], u, A.After(f, t[0], DELIMITERS), g, h);
    }
  }

  lemma {:induction false} ScanPasses(s: string, p: nat, q: nat, f: A.Flags, g: A.Flags)
    requires p <= q <= |s| && Passes(s[p..q], f, g)
    ensures A.Scan(s, p, f, DELIMITERS) == A.Scan(s, q, g, DELIMITERS)
    decreases q - p
  {
    if p < q {
      assert s[p..q][1..] == s[p + 1..q];
      ScanPasses(s, p + 1, q, A.After(f, s[p], DELIMITERS), g);
    }
  }

  function ScanFlags(q: char): A.Flags {
    A.Flags(q == '"', q == '\'', false)
  }

  lemma {:induction false} QuotedPasses(a: string, q: char)
    requires IsQuote(q) && Plain(a, q)
    ensures Passes(a, ScanFlags(q), ScanFlags(q))
  {
    if a != [] {
      assert A.After(ScanFlags(q), a[0], DELIMITERS) == ScanFlags(q);
      QuotedPasses(a[1..], q);
    }
  }

  lemma QuotePasses(a: string, q: char)
    requires IsQuote(q) && Plain(a, q)
    ensures Passes(Quote(a, q), A.CLEAR, A.CLEAR)
  {
    QuotedPasses(a, q);
    assert Passes([q], A.CLEAR, ScanFlags(q)) && Passes([q], ScanFlags(q), A.CLEAR) by {
      assert [q][1..] == [];
      assert SPECIAL == ['"', '\'', '\\'];
    }
    PassesConcat([q], a, A.CLEAR, ScanFlags(q), ScanFlags(q));
    PassesConcat([q] + a, [q], A.CLEAR, ScanFlags(q), A.CLEAR);
  }

  lemma WrittenPasses(arg: Arg)
    requires Protected(arg)
    ensures Passes(Written(arg), A.CLEAR, A.CLEAR)
  {
    match arg.style
    case AsIs =>
    case InDouble => QuotePasses(arg.text, '"');
    case InSingle => QuotePasses(arg.text, '\'');
  }

  lemma SpacePasses()
    ensures Passes(" ", A.CLEAR, A.CLEAR)
  {
    assert " "[1..] == "";
  }

  lemma {:induction false} JoinPasses(pieces: seq<string>)
    requires pieces != [] && forall i :: 0 <= i < |pieces| ==> Passes(pieces[i], A.CLEAR, A.CLEAR)
    ensures Passes(S.Join(pieces), A.CLEAR, A.CLEAR)
  {
    if |pieces| > 1 {
      JoinPasses(pieces[1..]);
      SpacePasses();
      PassesConcat(" ", S.Join(pieces[1..]), A.CLEAR, A.CLEAR, A.CLEAR);
      PassesConcat(pieces[0], " " + S.Join(pieces[1..]), A.CLEAR, A.CLEAR, A.CLEAR);
    }
  }

  lemma LineStarts(word: string, args: seq<Arg>)
    requires Word(word)
    ensures Line(word, args) != [] && Line(word, args)[0] == word[0]
  {
    assert ([word] + WrittenAll(args))[0] == word;
  }

  /** argsep leaves such a line whole, whether it ends the list or a delimiter and more
      commands follow. */
  lemma LineIsLeftWhole(word: string, args: seq<Arg>, rest: string)
    requires Word(word) && AllProtected(args)
    requires rest != [] ==> rest[0] in DELIMITERS
    ensures var line := Line(word, args);
            A.Separate(line + rest, DELIMITERS) == A.Cut(0, if rest == [] then None else Some(|line|))
  {
    var line := Line(word, args);
    var s := line + rest;
    LineStarts(word, args);
    assert s[0] == word[0];
    forall i | 0 <= i < |args| ensures Passes(Written(args[i]), A.CLEAR, A.CLEAR) {
      WrittenPasses(args[i]);
    }
    JoinPasses([word] + WrittenAll(args));
    assert s[0..|line|] == line;
    ScanPasses(s, 0, |line|, A.CLEAR, A.CLEAR);
    if rest != [] {
      assert s[|line|] == rest[0];
      DelimitersAreNotSpecial(rest[0]);
    }
  }

  lemma DelimitersAreNotSpecial(c: char)
    requires c in DELIMITERS
    ensures c !in SPECIAL
  {
    assert DELIMITERS == [';', ','] && SPECIAL == ['"', '\'', '\\'];
  }

  /** The round trip: for every command word but the three that keep quotes, and any
      arguments, each written as it is or in quotes of a kind that protects it, the line is
      left whole by argsep, cut by split_args into one argument each, and every argument is
      restored by strip_quotes. */
  lemma QuotingRoundTrip(word: string, args: seq<Arg>, rest: string)
    requires Word(word) && AllProtected(args) && word != "exec" && word != "exec_always" && word != "mode"
    requires rest != [] ==> rest[0] in DELIMITERS
    ensures var line := Line(word, args);
            && A.Separate(line + rest, DELIMITERS) == A.Cut(0, if rest == [] then None else Some(|line|))
            && Argv(line) == [word] + Texts(args)
  {
    LineIsLeftWhole(word, args, rest);
    LineIsSplit(word, args);
    var split := S.Split(Line(word, args));
    assert split[0] == word && split[1..] == WrittenAll(args);
    forall i | 0 <= i < |args| ensures UnquoteAll(WrittenAll(args))[i] == args[i].text {
      UnquoteWritten(args[i]);
    }
    assert UnquoteAll(WrittenAll(args)) == Texts(args);
  }

  /** The other three get their arguments as they were written, quotes and all. */
  lemma QuotesAreKept(word: string, args: seq<Arg>)
    requires word == "exec" || word == "exec_always" || word == "mode"
    requires Word(word) && AllProtected(args)
    ensures Argv(Line(word, args)) == [word] + WrittenAll(args)
  {
    LineIsSplit(word, args);
  }

  // ---------- What is protected without quotes ----------

  predicate Bare(c: char) {
    c !in SPECIAL && c !in DELIMITERS && !IsSpace(c) && c != NUL && c != '['
  }

  predicate AllBare(w: string) {
    forall i :: 0 <= i < |w| ==> Bare(w[i])
  }

  lemma BareIsPlain(c: char)
    requires c !in SPECIAL
    ensures c != '"' && c != '\'' && c != '\\'
  {
    assert SPECIAL == ['"', '\'', '\\'];
  }

  /** In some flags, reading a text without special characters changes nothing. */
  lemma {:induction false} BareStays(w: string, f: S.Flags)
    requires f in {S.CLEAR, BRACKETS} && forall i :: 0 <= i < |w| ==> w[i] !in SPECIAL && w[i] != '[' && w[i] != ']'
    ensures S.AfterAll(f, w) == f
  {
    if w != [] {
      BareIsPlain(w[0]);
      BareStays(w[1..], f);
    }
  }

  const BRACKETS := S.Flags(false, false, true, false)

  lemma {:induction false} WordPasses(w: string)
    requires forall i :: 0 <= i < |w| ==> w[i] !in SPECIAL && w[i] !in DELIMITERS
    ensures Passes(w, A.CLEAR, A.CLEAR)
  {
    if w != [] {
      BareIsPlain(w[0]);
      WordPasses(w[1..]);
    }
  }

  lemma {:induction false} WordIsAnArgument(w: string)
    requires AllBare(w)
    ensures S.AfterAll(S.CLEAR, w) == S.CLEAR
    ensures w != [] ==> S.Argument(w)
  {
    if w != [] {
      assert Bare(w[0]);
      BareIsPlain(w[0]);
      assert S.After(S.CLEAR, w[0]) == S.CLEAR;
      WordIsAnArgument(w[1..]);
    }
  }

  /** Words without any special character are words. */
  lemma BareWords(w: string)
    requires w != [] && AllBare(w)
    ensures Word(w) && !StartsQuoted(w)
  {
    WordIsAnArgument(w);
    WordPasses(w);
    BareIsPlain(w[0]);
  }

  /** Brackets protect white space. */
  lemma BracketsProtect(a: string)
    requires forall i :: 0 <= i < |a| ==> a[i] !in SPECIAL && a[i] !in DELIMITERS && a[i] != '[' && a[i] != ']'
    ensures Word("[" + a + "]")
  {
    var t := "[" + a + "]";
    assert "["[1..] == "" && "]"[1..] == "";
    assert S.AfterAll(S.CLEAR, "[") == BRACKETS && S.AfterAll(BRACKETS, "]") == S.CLEAR;
    BareStays(a, BRACKETS);
    S.AfterAllConcat(S.CLEAR, "[", a);
    S.AfterAllConcat(S.CLEAR, "[" + a, "]");
    forall i | 0 <= i < |t| ensures !S.Breaks(S.AfterAll(S.CLEAR, t[..i]), t[i]) {
      if 0 < i < |t| - 1 {
        assert t[..i] == "[" + a[..i - 1];
        BareStays(a[..i - 1], BRACKETS);
        S.AfterAllConcat(S.CLEAR, "[", a[..i - 1]);
      }
    }
    forall i | 0 <= i < |t| ensures t[i] !in SPECIAL && t[i] !in DELIMITERS {
      assert '[' !in SPECIAL && ']' !in SPECIAL by { assert SPECIAL == ['"', '\'', '\\']; }
    }
    WordPasses(t);
  }

  /** A backslash protects one character of white space behind it. */
  lemma BackslashProtects(a: string, b: string)
    requires a != "" && AllBare(a) && AllBare(b)
    ensures Word(a + ("\\ " + b))
  {
    var esc := "\\ ";
    var t := a + (esc + b);
    WordIsAnArgument(a);
    WordIsAnArgument(b);
    EscapedSpace(b);
    S.AfterAllConcat(S.CLEAR, a, esc + b);
    forall i | 0 <= i < |t| ensures !S.Breaks(S.AfterAll(S.CLEAR, t[..i]), t[i]) {
      if i < |a| {
        assert t[..i] == a[..i] && t[i] == a[i] && Bare(a[i]);
      } else {
        assert t[..i] == a + (esc + b)[..i - |a|] && t[i] == (esc + b)[i - |a|];
        S.AfterAllConcat(S.CLEAR, a, (esc + b)[..i - |a|]);
      }
    }
    WordPasses(a);
    PassesConcat(a, esc + b, A.CLEAR, A.CLEAR, A.CLEAR);
  }

  /** An escaped space and what follows it. */
  lemma EscapedSpace(b: string)
    requires AllBare(b)
    ensures var t := "\\ " + b;
            && S.AfterAll(S.CLEAR, t) == S.CLEAR && Passes(t, A.CLEAR, A.CLEAR)
            && forall i :: 0 <= i < |t| ==> !S.Breaks(S.AfterAll(S.CLEAR, t[..i]), t[i])
  {
    var t := "\\ " + b;
    assert t[1..] == " " + b && t[1..][1..] == b;
    WordIsAnArgument(b);
    WordPasses(b);
    forall i | 0 <= i < |t| ensures !S.Breaks(S.AfterAll(S.CLEAR, t[..i]), t[i]) {
      if i == 1 {
        assert t[..1] == ['\\'] && t[..1][1..] == "";
      } else if i >= 2 {
        assert t[i] == b[i - 2] && Bare(b[i - 2]);
      }
    }
  }
}
