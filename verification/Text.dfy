/** C strings: the text in a buffer up to the first NUL, and the characters that the
    command language treats specially. */
module Text {
  import opened Helpers

  const NUL: char := '\0'
  const SPECIAL: string := "\"'\\"

  /** The C string at the start of a buffer. */
  function CStr(b: seq<char>): string {
    if b == [] || b[0] == NUL then [] else [b[0]] + CStr(b[1..])
  }

  lemma {:induction false} CStrIsPrefix(b: seq<char>)
    ensures CStr(b) <= b && NUL !in CStr(b)
    ensures |CStr(b)| < |b| ==> b[|CStr(b)|] == NUL
    ensures NUL in b ==> |CStr(b)| < |b|
  {
    if b != [] && b[0] != NUL {
      CStrIsPrefix(b[1..]);
    }
  }

  /** A text followed by a NUL, or by the end of the buffer, is the C string. */
  lemma {:induction false} CStrIs(b: seq<char>, n: nat)
    requires n <= |b| && NUL !in b[..n] && (n < |b| ==> b[n] == NUL)
    ensures CStr(b) == b[..n]
  {
    if n > 0 {
      assert b[0] == b[..n][0];
      assert b[1..][..n - 1] == b[..n][1..];
      CStrIs(b[1..], n - 1);
    }
  }

  /** strpbrk: the first position at or after p that holds one of some characters. */
  function StrPbrk(s: string, p: nat, chars: string): Option<nat>
    decreases |s| - p
  {
    if p >= |s| then None
    else if s[p] in chars then Some(p)
    else StrPbrk(s, p + 1, chars)
  }

  lemma {:induction false} StrPbrkIsFirst(s: string, p: nat, chars: string)
    ensures match StrPbrk(s, p, chars)
            case None => forall i :: p <= i < |s| ==> s[i] !in chars
            case Some(k) => p <= k < |s| && s[k] in chars && forall i :: p <= i < k ==> s[i] !in chars
    decreases |s| - p
  {
    if p < |s| && s[p] !in chars {
      StrPbrkIsFirst(s, p + 1, chars);
    }
  }

  /** A C string at a position of a buffer. */
  predicate Holds(b: seq<char>, p: nat, text: string) {
    p + |text| < |b| && b[p..p + |text|] == text && b[p + |text|] == NUL && NUL !in text
  }

  lemma HoldsCStr(b: seq<char>, p: nat, text: string)
    requires Holds(b, p, text)
    ensures NUL in b[p..] && CStr(b[p..]) == text
  {
    assert b[p..][..|text|] == text && b[p..][|text|] == NUL;
    CStrIs(b[p..], |text|);
  }

  lemma RestHolds(b: seq<char>, head: nat, text: string, k: nat)
    requires Holds(b, head, text) && k <= |text|
    ensures Holds(b, head + k, text[k..])
  {
    SubSlice(b, head, head + |text|, k, |text|);
  }

  lemma TextStarts(b: seq<char>, p: nat, text: string)
    requires Holds(b, p, text)
    ensures text == "" <==> b[p] == NUL
    ensures text != "" ==> b[p] == text[0] && Holds(b, p + 1, text[1..])
  {
    if text != "" {
      assert b[p..p + |text|][0] == b[p];
      RestHolds(b, p, text, 1);
    }
  }

  /** The texts in a buffer after a NUL was written into one of them. */
  lemma HoldsAfterCut(b: seq<char>, c: seq<char>, head: nat, text: string, start: nat, end: nat)
    requires Holds(b, head, text) && start <= end < |text|
    requires head + end < |b| && c == b[head + end := NUL]
    ensures Holds(c, head + start, text[start..end]) && Holds(c, head + end + 1, text[end + 1..])
  {
    SubSlice(b, head, head + |text|, start, end);
    SubSlice(b, head, head + |text|, end + 1, |text|);
    assert c[head + start..head + end] == b[head + start..head + end];
    assert c[head + end + 1..head + |text|] == b[head + end + 1..head + |text|];
  }
}
