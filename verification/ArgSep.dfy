/** argsep: cuts the next command out of a command list at a delimiter that is not
    quoted or escaped. The code jumps from one interesting character to the next; the
    reference scanner below looks at one character at a time. */
module ArgSep {
  import opened Helpers
  import opened Text
  import opened Quotes

  datatype Flags = Flags(inString: bool, inChar: bool, escaped: bool)

  const CLEAR := Flags(false, false, false)

  predicate Interesting(c: char, delim: string) {
    c in SPECIAL || c in delim
  }

  /** The flags after one character that does not end the token. A character that is
      special but has no effect leaves them as they are, the escape included. */
  function After(f: Flags, c: char, delim: string): Flags {
    if c == '"' && !f.inChar && !f.escaped then f.(inString := !f.inString)
    else if c == '\'' && !f.inString && !f.escaped then f.(inChar := !f.inChar)
    else if c == '\\' then f.(escaped := !f.escaped)
    else if Interesting(c, delim) then f
    else f.(escaped := false)
  }

  predicate Ends(f: Flags, c: char, delim: string) {
    c in delim && c !in SPECIAL && f == CLEAR
  }

  /** Where the token that is read with flags f from position p on ends. */
  function Scan(s: string, p: nat, f: Flags, delim: string): Option<nat>
    decreases |s| - p
  {
    if p >= |s| then None
    else if Ends(f, s[p], delim) then Some(p)
    else Scan(s, p + 1, After(f, s[p], delim), delim)
  }

  /** The delimiters in front of the first token. */
  function Leading(s: string, delim: string): (n: nat)
    ensures n <= |s|
  {
    if s != [] && Ends(CLEAR, s[0], delim) then 1 + Leading(s[1..], delim) else 0
  }

  /** A command list cut in two: the token is what lies between the leading delimiters
      and the cut, if there is one. */
  datatype Cut = Cut(start: nat, end: Option<nat>)

  function Separate(s: string, delim: string): Cut {
    var start := Leading(s, delim);
    Cut(start, Scan(s, start, CLEAR, delim))
  }

  /** argsep_next_interesting. */
  function NextInteresting(s: string, p: nat, delim: string): Option<nat> {
    var special, nextDelim := StrPbrk(s, p, SPECIAL), StrPbrk(s, p, delim);
    if special.None? then nextDelim
    else if nextDelim.None? then special
    else if nextDelim.value < special.value then nextDelim
    else special
  }

  lemma NextInterestingIsFirst(s: string, p: nat, delim: string)
    ensures match NextInteresting(s, p, delim)
            case None => forall i :: p <= i < |s| ==> !Interesting(s[i], delim)
            case Some(k) =>
              && p <= k < |s| && Interesting(s[k], delim)
              && forall i :: p <= i < k ==> !Interesting(s[i], delim)
  {
    StrPbrkIsFirst(s, p, SPECIAL);
    StrPbrkIsFirst(s, p, delim);
  }

  /** Jumping over plain characters only forgets an escape. */
  lemma {:induction false} ScanSkipsPlain(s: string, p: nat, k: nat, f: Flags, delim: string)
    requires p <= k <= |s| && forall i :: p <= i < k ==> !Interesting(s[i], delim)
    ensures Scan(s, p, f, delim) == Scan(s, k, if p < k then f.(escaped := false) else f, delim)
    decreases k - p
  {
    if p < k {
      ScanSkipsPlain(s, p + 1, k, f.(escaped := false), delim);
    }
  }

  lemma {:induction false} LeadingIs(s: string, n: nat, delim: string)
    requires n <= |s| && forall i :: 0 <= i < n ==> Ends(CLEAR, s[i], delim)
    requires n < |s| ==> !Ends(CLEAR, s[n], delim)
    ensures Leading(s, delim) == n
  {
    if n > 0 {
      LeadingIs(s[1..], n - 1, delim);
    }
  }

  /** The loop of argsep over the text at *stringp. */
  method FindCut(s: string, delim: string) returns (cut: Cut, matched: char)
    ensures cut == Separate(s, delim)
    ensures cut.start <= |s|
    ensures cut.end.Some? ==> cut.start < cut.end.value < |s| && matched == s[cut.end.value]
    ensures cut.end.None? ==> matched == NUL
  {
    var start, end := 0, 0;
    var inString, inChar, escaped := false, false, false;
    var interesting := NextInteresting(s, end, delim);
    matched := NUL;
    while interesting.Some?
      invariant 0 <= start <= end <= |s| && interesting == NextInteresting(s, end, delim)
      invariant forall i :: 0 <= i < start ==> Ends(CLEAR, s[i], delim)
      invariant end == start ==> !inString && !inChar && !escaped
      invariant end > start ==> !Ends(CLEAR, s[start], delim)
      invariant Scan(s, start, CLEAR, delim) == Scan(s, end, Flags(inString, inChar, escaped), delim)
      decreases |s| - end
    {
      var at := interesting.value;
      NextInterestingIsFirst(s, end, delim);
      ScanSkipsPlain(s, end, at, Flags(inString, inChar, escaped), delim);
      if escaped && at != end {
        escaped := false;
      }
      if s[at] == '"' && !inChar && !escaped {
        inString := !inString;
        end := at + 1;
      } else if s[at] == '\'' && !inString && !escaped {
        inChar := !inChar;
        end := at + 1;
      } else if s[at] == '\\' {
        escaped := !escaped;
        end := at + 1;
      } else if !inString && !inChar && !escaped {
        end := at;
        matched := s[end];
        if end > start {
          LeadingIs(s, start, delim);
          return Cut(start, Some(end)), matched;
        }
        start := start + 1;
        end := start;
      } else {
        if at > end {
          ScanSkipsPlain(s, end, end + 1, Flags(inString, inChar, escaped), delim);
        }
        end := end + 1;
      }
      interesting := NextInteresting(s, end, delim);
    }
    NextInterestingIsFirst(s, end, delim);
    ScanSkipsPlain(s, end, |s|, Flags(inString, inChar, escaped), delim);
    LeadingIs(s, start, delim);
    return Cut(start, None), NUL;
  }

  /** The token that a cut leaves. */
  function TokenText(s: string, cut: Cut): string
    requires cut.start <= |s| && (cut.end.Some? ==> cut.start < cut.end.value < |s|)
  {
    if cut.end.Some? then s[cut.start..cut.end.value] else s[cut.start..]
  }

  /** What a cut does to a buffer that holds a text at position `head`: the token and the
      rest are C strings of it afterwards. */
  predicate CutIn(before: seq<char>, after: seq<char>, head: nat, text: string, cut: Cut,
                  token: nat, next: Option<nat>, matched: char)
  {
    && cut.start <= |text| && (cut.end.Some? ==> cut.start < cut.end.value < |text|)
    && token == head + cut.start && Holds(after, token, TokenText(text, cut))
    && match cut.end
       case None => next == None && matched == NUL && after == before
       case Some(k) =>
         && next == Some(head + k + 1) && matched == text[k]
         && head + k < |before| && after == before[head + k := NUL]
         && Holds(after, head + k + 1, text[k + 1..])
  }

  lemma CutMade(b: seq<char>, head: nat, text: string, cut: Cut, k: nat)
    requires Holds(b, head, text) && cut.end == Some(k) && cut.start < k < |text|
    ensures head + k < |b|
    ensures CutIn(b, b[head + k := NUL], head, text, cut, head + cut.start, Some(head + k + 1), text[k])
  {
    HoldsAfterCut(b, b[head + k := NUL], head, text, cut.start, k);
  }

  lemma NoCutMade(b: seq<char>, head: nat, text: string, cut: Cut)
    requires Holds(b, head, text) && cut.end == None && cut.start <= |text|
    ensures CutIn(b, b, head, text, cut, head + cut.start, None, NUL)
  {
    RestHolds(b, head, text, cut.start);
  }

  /** argsep: *stringp points at position `head` of the buffer, where `text` stands. */
  method Argsep(buf: array<char>, head: nat, ghost text: string, delim: string)
    returns (token: nat, next: Option<nat>, matched: char)
    requires Holds(buf[..], head, text)
    modifies buf
    ensures CutIn(old(buf[..]), buf[..], head, text, Separate(text, delim), token, next, matched)
  {
    ghost var before := buf[..];
    HoldsCStr(before, head, text);
    var cut;
    cut, matched := FindCut(CStr(buf[..][head..]), delim);
    if cut.end.Some? {
      CutMade(before, head, text, cut, cut.end.value);
      buf[head + cut.end.value] := NUL;
      assert buf[..] == before[head + cut.end.value := NUL];
      return head + cut.start, Some(head + cut.end.value + 1), matched;
    }
    NoCutMade(before, head, text, cut);
    return head + cut.start, None, matched;
  }

  lemma {:induction false} ScanFindsADelimiter(s: string, p: nat, f: Flags, delim: string)
    ensures match Scan(s, p, f, delim)
            case None => true
            case Some(k) => p <= k < |s| && s[k] in delim && s[k] !in SPECIAL
    decreases |s| - p
  {
    if p < |s| && !Ends(f, s[p], delim) {
      ScanFindsADelimiter(s, p + 1, After(f, s[p], delim), delim);
    }
  }

  /** A cut is behind the leading delimiters and inside the text: no token in front of
      a delimiter is empty. */
  lemma CutIsInside(s: string, delim: string)
    ensures var cut := Separate(s, delim);
            && cut.start <= |s|
            && (cut.end.Some? ==> cut.start < cut.end.value < |s| && s[cut.end.value] in delim)
  {
    LeadingAreDelimiters(s, delim);
    ScanFindsADelimiter(s, Leading(s, delim), CLEAR, delim);
    if Leading(s, delim) < |s| {
      ScanFindsADelimiter(s, Leading(s, delim) + 1, After(CLEAR, s[Leading(s, delim)], delim), delim);
    }
  }

  lemma {:induction false} LeadingAreDelimiters(s: string, delim: string)
    ensures var n := Leading(s, delim);
            && (forall i :: 0 <= i < n ==> Ends(CLEAR, s[i], delim))
            && (n < |s| ==> !Ends(CLEAR, s[n], delim))
  {
    if s != [] && Ends(CLEAR, s[0], delim) {
      LeadingAreDelimiters(s[1..], delim);
    }
  }

  // ---------- Delimiters in front ----------

  function Shifted(n: nat, p: Option<nat>): Option<nat> {
    if p.Some? then Some(n + p.value) else None
  }

  lemma {:induction false} ScanShift(lead: string, s: string, p: nat, f: Flags, delim: string)
    requires p <= |s|
    ensures Scan(lead + s, |lead| + p, f, delim) == Shifted(|lead|, Scan(s, p, f, delim))
    decreases |s| - p
  {
    if p < |s| {
      assert (lead + s)[|lead| + p] == s[p];
      ScanShift(lead, s, p + 1, After(f, s[p], delim), delim);
    }
  }

  lemma {:induction false} LeadingShift(lead: string, s: string, delim: string)
    requires forall i :: 0 <= i < |lead| ==> Ends(CLEAR, lead[i], delim)
    ensures Leading(lead + s, delim) == |lead| + Leading(s, delim)
    decreases |lead|
  {
    if lead == "" {
      assert lead + s == s;
    } else {
      assert (lead + s)[1..] == lead[1..] + s;
      LeadingShift(lead[1..], s, delim);
    }
  }

  /** Delimiters in front of a text do not change where it is cut. */
  lemma SeparateSkipsDelimiters(lead: string, s: string, delim: string)
    requires forall i :: 0 <= i < |lead| ==> Ends(CLEAR, lead[i], delim)
    ensures var cut := Separate(s, delim);
            Separate(lead + s, delim) == Cut(|lead| + cut.start, Shifted(|lead|, cut.end))
  {
    LeadingShift(lead, s, delim);
    ScanShift(lead, s, Leading(s, delim), CLEAR, delim);
  }

  // ---------- Where the cut is ----------

  /** The flags after a text that is read from clear flags. */
  function FlagsAfter(s: string, delim: string): Flags {
    if s == [] then CLEAR else After(FlagsAfter(s[..|s| - 1], delim), s[|s| - 1], delim)
  }

  /** Whether a token that starts at `start` may end at i. */
  predicate MayEnd(s: string, start: nat, i: nat, delim: string)
    requires start <= i < |s|
  {
    Ends(FlagsAfter(s[start..i], delim), s[i], delim)
  }

  lemma FlagsAfterNext(s: string, start: nat, p: nat, delim: string)
    requires start <= p < |s|
    ensures FlagsAfter(s[start..p + 1], delim) == After(FlagsAfter(s[start..p], delim), s[p], delim)
  {
    var t := s[start..p + 1];
    assert t[..|t| - 1] == s[start..p] && t[|t| - 1] == s[p];
  }

  lemma {:induction false} ScanIsFirst(s: string, start: nat, p: nat, delim: string)
    requires start <= p <= |s|
    ensures match Scan(s, p, FlagsAfter(s[start..p], delim), delim)
            case None => forall i :: p <= i < |s| ==> !MayEnd(s, start, i, delim)
            case Some(k) => p <= k < |s| && MayEnd(s, start, k, delim)
                            && forall i :: p <= i < k ==> !MayEnd(s, start, i, delim)
    decreases |s| - p
  {
    if p < |s| {
      FlagsAfterNext(s, start, p, delim);
      if !MayEnd(s, start, p, delim) {
        ScanIsFirst(s, start, p + 1, delim);
      }
    }
  }

  /** For every text the cut is at the first delimiter behind the leading ones that has no
      quote open and no escape pending in front of it; there is none exactly if no such
      delimiter is. */
  lemma SeparateIsFirst(s: string, delim: string)
    ensures var cut := Separate(s, delim);
            && cut.start <= |s|
            && match cut.end
               case None => forall i :: cut.start <= i < |s| ==> !MayEnd(s, cut.start, i, delim)
               case Some(k) => cut.start < k < |s| && MayEnd(s, cut.start, k, delim)
                               && forall i :: cut.start <= i < k ==> !MayEnd(s, cut.start, i, delim)
  {
    var start := Leading(s, delim);
    CutIsInside(s, delim);
    assert s[start..start] == [];
    ScanIsFirst(s, start, start, delim);
  }

  // ---------- What is open in front of the cut ----------

  /** How many backslashes are in the run of special characters and delimiters that a text
      ends with. An escape is only forgotten at a plain character. */
  function RunBackslashes(s: string, delim: string): nat {
    if s == "" || !Interesting(s[|s| - 1], delim) then 0
    else RunBackslashes(s[..|s| - 1], delim) + if s[|s| - 1] == '\\' then 1 else 0
  }

  predicate Pending(s: string, delim: string) {
    RunBackslashes(s, delim) % 2 == 1
  }

  /** The quote that is open behind a text, if escapes last that long. */
  function QuoteBehind(s: string, delim: string): Quote {
    if s == "" then Outside
    else
      var before, c := s[..|s| - 1], s[|s| - 1];
      var q := QuoteBehind(before, delim);
      if c == '"' && q != Single && !Pending(before, delim) then Toggle(q, Double)
      else if c == '\'' && q != Double && !Pending(before, delim) then Toggle(q, Single)
      else q
  }

  /** The flags say what is open: the quote and the escape. */
  lemma {:induction false} FlagsAre(s: string, delim: string)
    ensures FlagsAfter(s, delim) ==
            Flags(QuoteBehind(s, delim) == Double, QuoteBehind(s, delim) == Single, Pending(s, delim))
    decreases |s|
  {
    if s != "" {
      FlagsAre(s[..|s| - 1], delim);
    }
  }

  /** A delimiter that ends a token which starts at `start`. */
  predicate Cuts(s: string, start: nat, i: nat, delim: string)
    requires start <= i < |s|
  {
    && s[i] in delim && s[i] != '"' && s[i] != '\'' && s[i] != '\\'
    && QuoteBehind(s[start..i], delim) == Outside && !Pending(s[start..i], delim)
  }

  lemma SpecialIs(c: char)
    ensures c in SPECIAL <==> c == '"' || c == '\'' || c == '\\'
  {
    assert SPECIAL == ['"', '\'', '\\'];
  }

  lemma MayEndIsCuts(s: string, start: nat, i: nat, delim: string)
    requires start <= i < |s|
    ensures MayEnd(s, start, i, delim) <==> Cuts(s, start, i, delim)
  {
    FlagsAre(s[start..i], delim);
    SpecialIs(s[i]);
  }

  /** For every text the cut is at the first delimiter, behind the delimiters that it starts
      with, that has no quote open and no escape pending in front of it. */
  lemma SeparateCuts(s: string, delim: string)
    ensures var cut := Separate(s, delim);
            && cut.start <= |s|
            && (forall i :: 0 <= i < cut.start ==> s[i] in delim)
            && match cut.end
               case None => forall i :: cut.start <= i < |s| ==> !Cuts(s, cut.start, i, delim)
               case Some(k) => cut.start < k < |s| && Cuts(s, cut.start, k, delim)
                               && forall i :: cut.start <= i < k ==> !Cuts(s, cut.start, i, delim)
  {
    SeparateIsFirst(s, delim);
    LeadingAreDelimiters(s, delim);
    var start := Separate(s, delim).start;
    forall i | start <= i < |s| ensures MayEnd(s, start, i, delim) <==> Cuts(s, start, i, delim) {
      MayEndIsCuts(s, start, i, delim);
    }
  }

  // ---------- Text without backslashes ----------

  /** Without backslashes the quote is the one that any reader would call open. */
  lemma {:induction false} QuoteIsOpenQuote(s: string, delim: string)
    requires '\\' !in s
    ensures QuoteBehind(s, delim) == OpenQuote(s) && !Pending(s, delim) && !Escaping(s)
    decreases |s|
  {
    if s != "" {
      QuoteIsOpenQuote(s[..|s| - 1], delim);
    }
  }

  /** Without backslashes, a cut is at the first delimiter behind the leading ones that
      has no quote open in front of it; there is none exactly if no such delimiter is. */
  lemma SeparateWithoutBackslash(s: string, delim: string)
    requires '\\' !in s && (forall c :: c in delim ==> c !in SPECIAL)
    ensures var cut := Separate(s, delim);
            match cut.end
            case None => forall i :: cut.start <= i < |s| && s[i] in delim ==> OpenQuote(s[cut.start..i]) != Outside
            case Some(k) =>
              && cut.start < k < |s| && s[k] in delim && OpenQuote(s[cut.start..k]) == Outside
              && forall i :: cut.start <= i < k && s[i] in delim ==> OpenQuote(s[cut.start..i]) != Outside
  {
    SeparateCuts(s, delim);
    var start := Separate(s, delim).start;
    forall i | start <= i < |s|
      ensures Cuts(s, start, i, delim) <==> s[i] in delim && OpenQuote(s[start..i]) == Outside
    {
      QuoteIsOpenQuote(s[start..i], delim);
      SpecialIs(s[i]);
    }
  }
}
