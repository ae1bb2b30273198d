/** strip_quotes: removes the quotes that delimit parts of an argument, in place. */
module StripQuotes {
  import opened Helpers
  import opened Text
  import opened Quotes

  datatype Flags = Flags(inString: bool, inChar: bool, escaped: bool)

  const CLEAR := Flags(false, false, false)

  /** A quote that opens or closes: not escaped and not inside quotes of the other kind. */
  predicate Delimits(f: Flags, c: char) {
    (c == '\'' && !f.inString && !f.escaped) || (c == '"' && !f.inChar && !f.escaped)
  }

  function After(f: Flags, c: char): Flags {
    if c == '\'' && !f.inString && !f.escaped then f.(inChar := !f.inChar)
    else if c == '"' && !f.inChar && !f.escaped then f.(inString := !f.inString)
    else if c == '\\' then f.(escaped := !f.escaped)
    else f.(escaped := false)
  }

  /** The argument without its delimiting quotes. */
  function Strip(s: string, f: Flags): (r: string)
    ensures |r| <= |s|
    decreases s
  {
    if s == [] then []
    else (if Delimits(f, s[0]) then [] else [s[0]]) + Strip(s[1..], After(f, s[0]))
  }

  /** The buffer in the middle of the loop: the part in front of p is done, the text
      from p to its end is unread, and what the loop will make of it is known. */
  ghost predicate Halfway(b: seq<char>, p: nat, end: nat, f: Flags, result: string) {
    && p <= end < |b| && b[end] == NUL && NUL !in b[..end]
    && b[..p] + Strip(b[p..end], f) == result
  }

  /** strip_quotes. */
  method StripQuotes(str: array<char>)
    requires NUL in str[..]
    modifies str
    ensures NUL in str[..] && CStr(str[..]) == Strip(CStr(old(str[..])), CLEAR)
    ensures forall k :: |CStr(old(str[..]))| < k < str.Length ==> str[k] == old(str[k])
  {
    CStrIsPrefix(str[..]);
    ghost var result := Strip(CStr(str[..]), CLEAR);
    var inString, inChar, escaped := false, false, false;
    var end := |CStr(str[..])|;
    ghost var nul := end;
    var p := 0;
    assert str[..][..0] == [] && str[..][0..end] == CStr(str[..]);
    while str[p] != NUL
      invariant 0 <= p <= end <= nul < str.Length
      invariant Halfway(str[..], p, end, Flags(inString, inChar, escaped), result)
      invariant forall k :: nul < k < str.Length ==> str[k] == old(str[k])
      decreases end - p
    {
      ghost var f := Flags(inString, inChar, escaped);
      if str[p] == '\'' && !inString && !escaped {
        inChar := !inChar;
        end := ShiftOver(str, p, end, f, result);
      } else if str[p] == '"' && !inChar && !escaped {
        inString := !inString;
        end := ShiftOver(str, p, end, f, result);
      } else if str[p] == '\\' {
        KeptOne(str[..], p, end, f, result);
        escaped := !escaped;
        p := p + 1;
      } else {
        KeptOne(str[..], p, end, f, result);
        escaped := false;
        p := p + 1;
      }
    }
    str[end] := NUL;
    Finished(str[..], p, end, Flags(inString, inChar, escaped), result);
  }

  /** memmove of the rest of the text, the NUL included, one place to the left: the
      quote at p is gone. */
  method ShiftOver(str: array<char>, p: nat, end: nat, ghost f: Flags, ghost result: string) returns (newEnd: nat)
    requires Halfway(str[..], p, end, f, result) && p < end && Delimits(f, str[p])
    modifies str
    ensures newEnd == end - 1
    ensures Halfway(str[..], p, newEnd, After(f, old(str[p])), result)
    ensures forall k :: end <= k < str.Length ==> str[k] == old(str[k])
  {
    ghost var before := str[..];
    forall k | p <= k < end { str[k] := str[k + 1]; }
    newEnd := end - 1;
    Shifted(before, str[..], p, newEnd, f, result);
  }

  lemma Shifted(before: seq<char>, after: seq<char>, p: nat, end: nat, f: Flags, result: string)
    requires end + 1 < |before| && Halfway(before, p, end + 1, f, result)
    requires p <= end && Delimits(f, before[p])
    requires |after| == |before| && after[..p] == before[..p]
    requires forall k :: p <= k <= end ==> after[k] == before[k + 1]
    ensures Halfway(after, p, end, After(f, before[p]), result)
  {
    assert before[p..end + 1][1..] == before[p + 1..end + 1];
    assert before[p + 1..end + 1] == after[p..end];
    forall k | 0 <= k < end ensures after[k] != NUL {
      var j := if k < p then k else k + 1;
      assert after[k] == before[j] == before[..end + 1][j];
      assert k < p ==> after[k] == after[..p][k];
    }
  }

  lemma KeptOne(b: seq<char>, p: nat, end: nat, f: Flags, result: string)
    requires Halfway(b, p, end, f, result) && b[p] != NUL && !Delimits(f, b[p])
    ensures p < end && Halfway(b, p + 1, end, After(f, b[p]), result)
  {
    assert p < end;
    assert b[p..end][1..] == b[p + 1..end] && b[..p + 1] == b[..p] + [b[p]];
  }

  lemma Finished(b: seq<char>, p: nat, end: nat, f: Flags, result: string)
    requires Halfway(b, p, end, f, result) && b[p] == NUL
    ensures NUL in b && CStr(b) == result
  {
    assert p == end;
    assert b[p..end] == [];
    CStrIs(b, end);
  }

  // ---------- What is removed ----------

  function NonQuotes(s: string): string {
    if s == [] then [] else (if s[0] == '"' || s[0] == '\'' then [] else [s[0]]) + NonQuotes(s[1..])
  }

  /** The flags in front of position i. */
  function FlagsAt(s: string, f: Flags, i: nat): Flags
    requires i <= |s|
    decreases i
  {
    if i == 0 then f else After(FlagsAt(s, f, i - 1), s[i - 1])
  }

  lemma {:induction false} FlagsAtShift(s: string, f: Flags, i: nat)
    requires 0 < i <= |s|
    ensures FlagsAt(s, f, i) == FlagsAt(s[1..], After(f, s[0]), i - 1)
  {
    if i > 1 {
      FlagsAtShift(s, f, i - 1);
    }
  }

  /** Nothing but quotes disappears, and the rest keeps its order. */
  lemma {:induction false} OnlyQuotesGo(s: string, f: Flags)
    ensures NonQuotes(Strip(s, f)) == NonQuotes(s)
    decreases s
  {
    if s != [] {
      OnlyQuotesGo(s[1..], After(f, s[0]));
      var rest := Strip(s[1..], After(f, s[0]));
      if Delimits(f, s[0]) {
        assert Strip(s, f) == rest;
      } else {
        assert Strip(s, f)[1..] == rest;
      }
    }
  }

  /** An argument without delimiting quotes is left as it is, and no other is. */
  lemma {:induction false} UntouchedIff(s: string, f: Flags)
    ensures Strip(s, f) == s <==> forall i :: 0 <= i < |s| ==> !Delimits(FlagsAt(s, f, i), s[i])
    decreases s
  {
    if s != [] {
      var rest, g := s[1..], After(f, s[0]);
      UntouchedIff(rest, g);
      forall i | 0 <= i < |rest|
        ensures FlagsAt(s, f, i + 1) == FlagsAt(rest, g, i)
      {
        FlagsAtShift(s, f, i + 1);
      }
      assert FlagsAt(s, f, 0) == f;
      if Delimits(f, s[0]) {
        assert |Strip(s, f)| < |s|;
      } else {
        assert Strip(s, f) == [s[0]] + Strip(rest, g);
        assert s == [s[0]] + rest;
        assert Strip(s, f)[1..] == Strip(rest, g);
        if forall i :: 0 <= i < |s| ==> !Delimits(FlagsAt(s, f, i), s[i]) {
          forall i | 0 <= i < |rest| ensures !Delimits(FlagsAt(rest, g, i), rest[i]) {
            assert rest[i] == s[i + 1] && !Delimits(FlagsAt(s, f, i + 1), s[i + 1]);
          }
        }
        if forall i :: 0 <= i < |rest| ==> !Delimits(FlagsAt(rest, g, i), rest[i]) {
          forall i | 0 <= i < |s| ensures !Delimits(FlagsAt(s, f, i), s[i]) {
            if i > 0 { assert rest[i - 1] == s[i] && FlagsAt(s, f, i - 1 + 1) == FlagsAt(rest, g, i - 1); }
          }
        }
      }
    }
  }

  // ---------- Which quotes are removed ----------

  lemma {:induction false} FlagsAre(s: string, i: nat)
    requires i <= |s|
    ensures FlagsAt(s, CLEAR, i) ==
            Flags(OpenQuote(s[..i]) == Double, OpenQuote(s[..i]) == Single, Escaping(s[..i]))
  {
    if i > 0 {
      FlagsAre(s, i - 1);
      assert s[..i][..i - 1] == s[..i - 1] && s[..i][i - 1] == s[i - 1];
    }
  }

  /** The characters of a text at which no quote opens or closes. */
  function Unquoting(s: string): string {
    if s == "" then ""
    else
      var before := s[..|s| - 1];
      Unquoting(before) + if OpenQuote(s) == OpenQuote(before) then [s[|s| - 1]] else ""
  }

  lemma {:induction false} StripAppend(s: string, f: Flags, c: char)
    ensures Strip(s + [c], f) == Strip(s, f) + if Delimits(FlagsAt(s, f, |s|), c) then [] else [c]
    decreases |s|
  {
    if s == "" {
      assert (s + [c])[1..] == "";
    } else {
      var g := After(f, s[0]);
      assert (s + [c])[1..] == s[1..] + [c];
      StripAppend(s[1..], g, c);
      FlagsAtShift(s, f, |s|);
      assert s[1..][..|s[1..]|] == s[1..];
    }
  }

  /** For every text exactly those characters go at which a quote opens or closes. */
  lemma {:induction false} StripIsUnquoting(s: string)
    ensures Strip(s, CLEAR) == Unquoting(s)
    decreases |s|
  {
    if s != "" {
      var before, c := s[..|s| - 1], s[|s| - 1];
      StripIsUnquoting(before);
      StripAppend(before, CLEAR, c);
      FlagsAre(before, |before|);
      assert before[..|before|] == before && s == before + [c];
    }
  }
}
