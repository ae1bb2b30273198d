/** split_args: cuts a command into its arguments at white space that is not quoted,
    bracketed or escaped; join_args puts arguments together again. */
module SplitArgs {
  import opened Helpers
  import opened Text
  import opened Quotes

  datatype Flags = Flags(inString: bool, inChar: bool, inBrackets: bool, escaped: bool)

  const CLEAR := Flags(false, false, false, false)

  /** The flags after one character of a token. */
  function After(f: Flags, c: char): Flags {
    var g :=
      if c == '"' && !f.inChar && !f.escaped then f.(inString := !f.inString)
      else if c == '\'' && !f.inString && !f.escaped then f.(inChar := !f.inChar)
      else if c == '[' && !f.inString && !f.inChar && !f.inBrackets && !f.escaped then f.(inBrackets := true)
      else if c == ']' && !f.inString && !f.inChar && f.inBrackets && !f.escaped then f.(inBrackets := false)
      else if c == '\\' then f.(escaped := !f.escaped)
      else f;
    if c != '\\' then g.(escaped := false) else g
  }

  /** White space ends a token only outside quotes, brackets and escapes. */
  predicate Breaks(f: Flags, c: char) {
    f == CLEAR && IsSpace(c)
  }

  /** The length of the token at the front of a text that is read with flags f. */
  function TokenLen(s: string, f: Flags): (n: nat)
    ensures n <= |s| && (n == 0 <==> s == [] || Breaks(f, s[0]))
    decreases s
  {
    if s == [] || Breaks(f, s[0]) then 0 else 1 + TokenLen(s[1..], After(f, s[0]))
  }

  /** The flags after a whole text. */
  function AfterAll(f: Flags, s: string): Flags
    decreases s
  {
    if s == [] then f else AfterAll(After(f, s[0]), s[1..])
  }

  lemma {:induction false} AfterAllConcat(f: Flags, a: string, b: string)
    ensures AfterAll(f, a + b) == AfterAll(AfterAll(f, a), b)
    decreases a
  {
    if a == [] {
      assert a + b == b;
    } else {
      assert (a + b)[1..] == a[1..] + b;
      AfterAllConcat(After(f, a[0]), a[1..], b);
    }
  }

  /** strspn over white space from position p on. */
  function SkipSpaces(s: string, p: nat): (q: nat)
    requires p <= |s|
    ensures p <= q <= |s| && (q < |s| ==> !IsSpace(s[q]))
    decreases |s| - p
  {
    if p < |s| && IsSpace(s[p]) then SkipSpaces(s, p + 1) else p
  }

  lemma {:induction false} SkipSpacesTrims(s: string, p: nat)
    requires p <= |s|
    ensures Trim(s[p..]) == s[SkipSpaces(s, p)..]
    decreases |s| - p
  {
    if p < |s| && IsSpace(s[p]) {
      SkipSpacesTrims(s, p + 1);
      assert s[p..][1..] == s[p + 1..];
    }
  }

  /** A text without the white space in front of it. */
  function Trim(s: string): (r: string)
    ensures |r| <= |s| && (r != [] ==> !IsSpace(r[0]))
  {
    if s != [] && IsSpace(s[0]) then Trim(s[1..]) else s
  }

  /** The token at the front of a text, and what is behind it. */
  function Token(r: string): string {
    r[..TokenLen(r, CLEAR)]
  }

  function Behind(r: string): (rest: string)
    ensures r != [] && !IsSpace(r[0]) ==> |rest| < |r|
  {
    r[TokenLen(r, CLEAR)..]
  }

  /** The arguments of a command. */
  function Split(s: string): seq<string>
    decreases |s|
  {
    var r := Trim(s);
    if r == [] then [] else [Token(r)] + Split(Behind(r))
  }

  /** The arguments of a command behind those already collected. */
  function Collect(args: seq<string>, s: string): seq<string>
    decreases |s|
  {
    var r := Trim(s);
    if r == [] then args else Collect(args + [Token(r)], Behind(r))
  }

  lemma {:induction false} CollectIsSplit(args: seq<string>, s: string)
    ensures Collect(args, s) == args + Split(s)
    decreases |s|
  {
    var r := Trim(s);
    if r != [] {
      CollectIsSplit(args + [Token(r)], Behind(r));
      Concatenation(args, [Token(r)], Split(Behind(r)));
    }
  }

  /** The first cells of the argument vector hold these arguments, and there is room
      for one more and for the null pointer at the end. */
  ghost predicate Holds(argv: array<Option<string>>, args: seq<string>)
    reads argv
  {
    |args| + 1 < argv.Length && forall i :: 0 <= i < |args| ==> argv[i] == Some(args[i])
  }

  /** Adds a token, and doubles the vector when only one cell would be left. */
  method AddToken(argv: array<Option<string>>, argc: nat, token: string, ghost args: seq<string>)
    returns (grown: array<Option<string>>)
    requires Holds(argv, args) && argc == |args|
    modifies argv
    ensures grown == argv || fresh(grown)
    ensures Holds(grown, args + [token])
  {
    argv[argc] := Some(token);
    grown := argv;
    if argc + 2 == argv.Length {
      grown := new Option<string>[2 * argv.Length];
      forall i | 0 <= i < argv.Length { grown[i] := argv[i]; }
    }
  }

  /** split_args: the arguments, and a null pointer behind them. */
  method SplitArgs(text: Option<string>) returns (argv: array<Option<string>>, argc: nat)
    ensures fresh(argv) && argc < argv.Length && argv[argc] == None
    ensures var args := if text.Some? then Split(text.value) else [];
            argc == |args| && forall i :: 0 <= i < argc ==> argv[i] == Some(args[i])
  {
    argc := 0;
    argv := new Option<string>[2];
    ghost var args := [];
    if text.Some? {
      var s := text.value;
      var start, end := 0, 0;
      var inToken := false;
      var f := CLEAR;
      assert s[0..] == s;
      while start < |s|
        invariant fresh(argv) && argc == |args| && Holds(argv, args) && 0 <= start <= end <= |s|
        invariant if inToken then start < end && AtToken(s, args, start, end, f) else AtGap(s, args, end, f)
        decreases |s| - end, inToken, |s| - start
      {
        if !inToken {
          end := SkipSpace(s, args, end, f);
          start := end;
          inToken := true;
        }
        if end < |s| && !Breaks(f, s[end]) {
          TokenGoesOn(s, args, start, end, f);
          f := After(f, s[end]);
          end := end + 1;
        } else {
          if end > start {
            var token := s[start..end];
            TokenEnds(s, args, start, end, f, token);
            argv := AddToken(argv, argc, token, args);
            argc := argc + 1;
            args := args + [token];
          }
          inToken := false;
          f := f.(escaped := false);
        }
      }
      SplitDone(s, args, end, f);
    }
    argv[argc] := None;
  }

  /** Between two tokens, with all arguments in front of end collected. */
  predicate AtGap(s: string, args: seq<string>, end: nat, f: Flags) {
    end <= |s| && Collect(args, s[end..]) == Collect([], s) && (end < |s| ==> f == CLEAR)
  }

  /** Reading from start with clear flags has come to end with flags f. */
  predicate AtToken(s: string, args: seq<string>, start: nat, end: nat, f: Flags) {
    && start <= end <= |s| && start < |s| && !IsSpace(s[start])
    && Collect(args, s[start..]) == Collect([], s)
    && TokenLen(s[start..], CLEAR) == end - start + TokenLen(s[end..], f)
  }

  /** At the end of the text everything is collected. */
  lemma SplitDone(s: string, args: seq<string>, end: nat, f: Flags)
    requires end == |s| && AtGap(s, args, end, f)
    ensures args == Split(s)
  {
    CollectIsSplit([], s);
    assert Collect(args, s[|s|..]) == args;
    assert [] + Split(s) == Split(s);
  }

  /** White space in front of a text does not matter. */
  lemma {:induction false} TrimSkips(space: string, s: string)
    requires AllSpace(space)
    ensures Trim(space + s) == Trim(s)
  {
    if space == "" {
      assert space + s == s;
    } else {
      assert (space + s)[1..] == space[1..] + s;
      TrimSkips(space[1..], s);
    }
  }

  lemma CollectTrims(args: seq<string>, s: string)
    ensures Collect(args, Trim(s)) == Collect(args, s)
  {
    assert Trim(Trim(s)) == Trim(s);
  }

  /** Moves over white space to the next token. */
  method SkipSpace(s: string, ghost args: seq<string>, end: nat, ghost f: Flags) returns (start: nat)
    requires AtGap(s, args, end, f)
    ensures end <= start <= |s|
    ensures if start < |s| then f == CLEAR && AtToken(s, args, start, start, CLEAR) && !Breaks(CLEAR, s[start])
            else AtGap(s, args, start, f.(escaped := false))
  {
    start := SkipSpaces(s, end);
    SkipSpacesTrims(s, end);
    CollectTrims(args, s[end..]);
  }

  lemma TokenGoesOn(s: string, args: seq<string>, start: nat, end: nat, f: Flags)
    requires AtToken(s, args, start, end, f) && end < |s| && !Breaks(f, s[end])
    ensures AtToken(s, args, start, end + 1, After(f, s[end]))
  {
    assert s[end..][1..] == s[end + 1..];
  }

  lemma TokenEnds(s: string, args: seq<string>, start: nat, end: nat, f: Flags, token: string)
    requires AtToken(s, args, start, end, f) && start < end && (end < |s| ==> Breaks(f, s[end]))
    requires token == s[start..end]
    ensures AtGap(s, args + [token], end, f.(escaped := false))
  {
    assert TokenLen(s[end..], f) == 0;
    SliceOfRest(s, start, end);
  }

  lemma SliceOfRest(s: string, start: nat, end: nat)
    requires start <= end <= |s|
    ensures s[start..][..end - start] == s[start..end] && s[start..][end - start..] == s[end..]
  {
  }

  // ---------- What the arguments are ----------

  /** A text that split_args reads as one argument: white space occurs in it only where
      a quote, a bracket or an escape is open. */
  predicate Argument(t: string) {
    t != [] && !IsSpace(t[0]) && forall i :: 0 <= i < |t| ==> !Breaks(AfterAll(CLEAR, t[..i]), t[i])
  }

  /** An argument behind which the next white space separates. */
  predicate Closed(t: string) {
    AfterAll(CLEAR, t) == CLEAR
  }

  /** A token never runs past unquoted white space, and ends only there. */
  lemma {:induction false} TokenLenIs(s: string, f: Flags)
    ensures var n := TokenLen(s, f);
            && (forall i :: 0 <= i < n ==> !Breaks(AfterAll(f, s[..i]), s[i]))
            && (n < |s| ==> Breaks(AfterAll(f, s[..n]), s[n]))
  {
    var n := TokenLen(s, f);
    assert s[..0] == [];
    if n > 0 {
      TokenLenIs(s[1..], After(f, s[0]));
      forall i | 0 < i <= n && i <= |s|
        ensures AfterAll(f, s[..i]) == AfterAll(After(f, s[0]), s[1..][..i - 1])
      {
        assert s[..i][1..] == s[1..][..i - 1];
      }
      forall i | 0 <= i < n
        ensures !Breaks(AfterAll(f, s[..i]), s[i])
      {
        if i > 0 { assert s[i] == s[1..][i - 1]; }
      }
    }
  }

  lemma {:induction false} TokenLenWhole(t: string, u: string, f: Flags)
    requires forall i :: 0 <= i < |t| ==> !Breaks(AfterAll(f, t[..i]), t[i])
    ensures TokenLen(t + u, f) == |t| + TokenLen(u, AfterAll(f, t))
  {
    if t == [] {
      assert t + u == u;
    } else {
      assert t[..0] == [];
      forall i | 0 <= i < |t[1..]|
        ensures !Breaks(AfterAll(After(f, t[0]), t[1..][..i]), t[1..][i])
      {
        assert t[..i + 1][1..] == t[1..][..i] && t[i + 1] == t[1..][i];
        assert !Breaks(AfterAll(f, t[..i + 1]), t[i + 1]);
      }
      TokenLenWhole(t[1..], u, After(f, t[0]));
      assert (t + u)[1..] == t[1..] + u;
    }
  }

  // ---------- What protects white space ----------

  /** The flags say what is open: the quote, the bracket, and the escape. */
  lemma {:induction false} FlagsAre(s: string)
    ensures AfterAll(CLEAR, s) ==
            Flags(OpenQuote(s) == Double, OpenQuote(s) == Single, OpenBracket(s), Escaping(s))
    decreases |s|
  {
    if s != "" {
      var before, last := s[..|s| - 1], [s[|s| - 1]];
      FlagsAre(before);
      assert s == before + last && last[1..] == "";
      AfterAllConcat(CLEAR, before, last);
    }
  }

  /** White space separates exactly where nothing is open. */
  predicate Separates(r: string, i: nat)
    requires i < |r|
  {
    IsSpace(r[i]) && InTheOpen(r[..i])
  }

  lemma SeparatesIsBreaks(r: string, i: nat)
    requires i < |r|
    ensures Breaks(AfterAll(CLEAR, r[..i]), r[i]) <==> Separates(r, i)
  {
    FlagsAre(r[..i]);
  }

  /** For every text the first token ends at the first white space where no quote and no
      bracket is open and no backslash escapes it; without one it is the whole text. */
  lemma TokenEndsWhereNothingIsOpen(r: string)
    ensures var n := |Token(r)|;
            && Token(r) == r[..n] && Behind(r) == r[n..]
            && (forall i :: 0 <= i < n ==> !Separates(r, i))
            && (n < |r| ==> Separates(r, n))
  {
    TokenLenIs(r, CLEAR);
    var n := TokenLen(r, CLEAR);
    forall i | 0 <= i < n ensures !Separates(r, i) {
      SeparatesIsBreaks(r, i);
    }
    if n < |r| {
      SeparatesIsBreaks(r, n);
    }
  }

  /** One argument, in these terms: no white space in it separates; and nothing is left
      open exactly if nothing is open behind it. */
  lemma ArgumentIs(t: string)
    ensures Argument(t) <==> t != "" && !IsSpace(t[0]) && forall i :: 0 <= i < |t| ==> !Separates(t, i)
    ensures Closed(t) <==> InTheOpen(t)
  {
    FlagsAre(t);
    forall i | 0 <= i < |t| ensures Breaks(AfterAll(CLEAR, t[..i]), t[i]) <==> Separates(t, i) {
      SeparatesIsBreaks(t, i);
    }
  }

  /** The white space in front of, between and behind the arguments. */
  function Gaps(s: string): (gaps: seq<string>)
    ensures |gaps| == |Split(s)| + 1
    decreases |s|
  {
    var r := Trim(s);
    if r == [] then [s] else [s[..|s| - |r|]] + Gaps(Behind(r))
  }

  /** A text put together from gaps and what lies between them. */
  function Weave(gaps: seq<string>, args: seq<string>): string
    requires |gaps| == |args| + 1
  {
    if args == [] then gaps[0] else gaps[0] + (args[0] + Weave(gaps[1..], args[1..]))
  }

  /** Trim is a suffix, and only white space is in front of it. */
  lemma {:induction false} TrimSuffix(s: string)
    ensures var n := |s| - |Trim(s)|; Trim(s) == s[n..] && forall i :: 0 <= i < n ==> IsSpace(s[i])
  {
    if s != [] && IsSpace(s[0]) {
      TrimSuffix(s[1..]);
      var n := |s| - |Trim(s)|;
      forall i | 0 <= i < n ensures IsSpace(s[i]) {
        if i > 0 { assert s[i] == s[1..][i - 1]; }
      }
    }
  }

  lemma SpaceInFront(s: string, n: nat)
    requires n <= |s| && forall i :: 0 <= i < n ==> IsSpace(s[i])
    ensures AllSpace(s[..n]) && s == s[..n] + s[n..]
  {
  }

  lemma TrimDropsSpace(s: string)
    ensures AllSpace(s[..|s| - |Trim(s)|]) && s == s[..|s| - |Trim(s)|] + Trim(s)
    ensures s != [] && IsSpace(s[0]) ==> |Trim(s)| < |s|
  {
    TrimSuffix(s);
    SpaceInFront(s, |s| - |Trim(s)|);
  }

  lemma FirstArgument(r: string)
    requires r != [] && !IsSpace(r[0])
    ensures Argument(Token(r)) && r == Token(r) + Behind(r)
    ensures Behind(r) != [] ==> Closed(Token(r)) && IsSpace(Behind(r)[0])
  {
    TokenLenIs(r, CLEAR);
    var n := TokenLen(r, CLEAR);
    forall i | 0 <= i < n
      ensures !Breaks(AfterAll(CLEAR, Token(r)[..i]), Token(r)[i])
    {
      assert Token(r)[..i] == r[..i];
    }
  }

  /** The arguments with the gaps make up the text: there is white space between any
      two, and nothing is left open in any but the last. */
  ghost predicate Partition(s: string, gaps: seq<string>, args: seq<string>) {
    && |gaps| == |args| + 1 && Weave(gaps, args) == s
    && (forall i :: 0 <= i < |gaps| ==> AllSpace(gaps[i]))
    && (forall i :: 0 < i < |args| ==> gaps[i] != [])
    && (forall i :: 0 <= i < |args| ==> Argument(args[i]))
    && (forall i :: 0 <= i < |args| - 1 ==> Closed(args[i]))
  }

  lemma PartitionCons(gap: string, arg: string, s: string, gaps: seq<string>, args: seq<string>)
    requires Partition(s, gaps, args) && AllSpace(gap) && Argument(arg)
    requires args != [] ==> Closed(arg) && gaps[0] != []
    ensures Partition(gap + (arg + s), [gap] + gaps, [arg] + args)
  {
    assert ([gap] + gaps)[1..] == gaps && ([arg] + args)[1..] == args;
  }

  /** split_args loses nothing but white space: the text is the arguments with white
      space around them, and some between any two; each argument is one. */
  lemma {:induction false} SplitPartitions(s: string)
    ensures Partition(s, Gaps(s), Split(s))
    ensures s != [] && IsSpace(s[0]) ==> Gaps(s)[0] != []
    decreases |s|
  {
    TrimDropsSpace(s);
    var r := Trim(s);
    if r == [] {
      assert s[..|s|] == s;
    } else {
      FirstArgument(r);
      SplitPartitions(Behind(r));
      if Behind(r) == [] {
        assert Split(Behind(r)) == [];
      }
      PartitionCons(s[..|s| - |r|], Token(r), Behind(r), Gaps(Behind(r)), Split(Behind(r)));
    }
  }

  // ---------- join_args ----------

  function Join(args: seq<string>): string
    requires args != []
  {
    if |args| == 1 then args[0] else args[0] + (" " + Join(args[1..]))
  }

  /** join_args; there is nothing to return for an empty vector. */
  method JoinArgs(argv: seq<string>) returns (joined: Option<string>)
    ensures joined == if argv == [] then None else Some(Join(argv))
  {
    if |argv| == 0 {
      return None;
    }
    var res := "";
    for i := 0 to |argv|
      invariant res == if i == 0 then "" else Join(argv[..i])
    {
      if i > 0 {
        res := res + " ";
        JoinAppend(argv[..i], argv[i]);
      }
      assert argv[..i + 1] == argv[..i] + [argv[i]];
      res := res + argv[i];
    }
    assert argv[..|argv|] == argv;
    return Some(res);
  }

  lemma {:induction false} JoinAppend(args: seq<string>, last: string)
    requires args != []
    ensures Join(args + [last]) == Join(args) + " " + last
  {
    if |args| > 1 {
      assert (args + [last])[1..] == args[1..] + [last];
      JoinAppend(args[1..], last);
    } else {
      assert (args + [last])[1..] == [last];
    }
  }

  /** Each of the texts is one argument, and nothing is left open in any but the last. */
  ghost predicate Separable(args: seq<string>) {
    && (forall i :: 0 <= i < |args| ==> Argument(args[i]))
    && (forall i :: 0 <= i < |args| - 1 ==> Closed(args[i]))
  }

  lemma {:induction false} SplitOfSeparable(args: seq<string>)
    requires args != [] && Separable(args)
    ensures Split(Join(args)) == args
  {
    var t := args[0];
    var rest := if |args| == 1 then "" else " " + Join(args[1..]);
    var s := t + rest;
    assert Join(args) == s;
    TokenLenWhole(t, rest, CLEAR);
    assert s[0] == t[0];
    assert Token(s) == t && Behind(s) == rest;
    if |args| > 1 {
      assert Trim(rest) == Trim(rest[1..]) && rest[1..] == Join(args[1..]);
      SplitOfSeparable(args[1..]);
      assert Split(rest) == Split(rest[1..]);
    }
  }

  /** Texts that are joined by single spaces are split again into themselves if and only
      if each is an argument and nothing is left open in any but the last. */
  lemma SplitOfJoin(args: seq<string>)
    requires args != []
    ensures Split(Join(args)) == args <==> Separable(args)
  {
    if Separable(args) {
      SplitOfSeparable(args);
    }
    SplitPartitions(Join(args));
  }

  /** Splitting, joining and splitting again gives the same arguments. */
  lemma SplitJoinSplit(s: string)
    requires Split(s) != []
    ensures Split(Join(Split(s))) == Split(s)
  {
    SplitPartitions(s);
    SplitOfJoin(Split(s));
  }
}
