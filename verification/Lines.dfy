/** split_string, and how the payload of a COMMAND request becomes a command list. */
module Lines {
  import opened Helpers
  import opened Text

  predicate OccursAt(s: string, d: string, k: nat) {
    k + |d| <= |s| && s[k..k + |d|] == d
  }

  /** std::string::find from position p on. */
  function Find(s: string, d: string, p: nat): (r: Option<nat>)
    ensures r.Some? ==> p <= r.value && r.value + |d| <= |s|
    decreases |s| + 1 - p
  {
    if p + |d| > |s| then None
    else if OccursAt(s, d, p) then Some(p)
    else Find(s, d, p + 1)
  }

  lemma {:induction false} FindIsFirst(s: string, d: string, p: nat)
    ensures match Find(s, d, p)
            case None => forall k :: p <= k ==> !OccursAt(s, d, k)
            case Some(k) => OccursAt(s, d, k) && forall j :: p <= j < k ==> !OccursAt(s, d, j)
    decreases |s| + 1 - p
  {
    if p + |d| <= |s| && !OccursAt(s, d, p) {
      FindIsFirst(s, d, p + 1);
    }
  }

  /** The pieces of a text from position p on. An empty delimiter is not one: the code
      would find it forever. */
  function Pieces(s: string, d: string, p: nat): seq<string>
    requires d != [] && p <= |s|
    decreases |s| - p
  {
    match Find(s, d, p)
    case None => [s[p..]]
    case Some(k) => [s[p..k]] + Pieces(s, d, k + |d|)
  }

  /** The pieces behind those already found. */
  function Collect(found: seq<string>, s: string, d: string, p: nat): seq<string>
    requires d != [] && p <= |s|
    decreases |s| - p
  {
    match Find(s, d, p)
    case None => found + [s[p..]]
    case Some(k) => Collect(found + [s[p..k]], s, d, k + |d|)
  }

  lemma {:induction false} CollectIsPieces(found: seq<string>, s: string, d: string, p: nat)
    requires d != [] && p <= |s|
    ensures Collect(found, s, d, p) == found + Pieces(s, d, p)
    decreases |s| - p
  {
    match Find(s, d, p)
    case None =>
    case Some(k) =>
      CollectIsPieces(found + [s[p..k]], s, d, k + |d|);
      Concatenation(found, [s[p..k]], Pieces(s, d, k + |d|));
  }

  lemma CollectNext(found: seq<string>, s: string, d: string, p: nat, k: nat)
    requires d != [] && p <= |s| && Find(s, d, p) == Some(k)
    ensures p <= k && k + |d| <= |s| && Collect(found, s, d, p) == Collect(found + [s[p..k]], s, d, k + |d|)
  {
  }

  lemma CollectLast(found: seq<string>, s: string, d: string, p: nat)
    requires d != [] && p <= |s| && Find(s, d, p).None?
    requires Collect(found, s, d, p) == Collect([], s, d, 0)
    ensures found + [s[p..]] == Pieces(s, d, 0)
  {
    CollectIsPieces([], s, d, 0);
  }

  /** What is found so far, and what will be. */
  predicate Halfway(found: seq<string>, s: string, d: string, p: nat, next: Option<nat>)
    requires d != []
  {
    p <= |s| && next == Find(s, d, p) && Collect(found, s, d, p) == Collect([], s, d, 0)
  }

  lemma HalfwayNext(found: seq<string>, s: string, d: string, p: nat, k: nat)
    requires d != [] && Halfway(found, s, d, p, Some(k))
    ensures p <= k && k + |d| <= |s|
    ensures Halfway(found + [s[p..k]], s, d, k + |d|, Find(s, d, k + |d|))
  {
    CollectNext(found, s, d, p, k);
  }

  /** split_string. */
  method SplitString(s: string, delimiter: string) returns (res: seq<string>)
    requires delimiter != []
    ensures res == Pieces(s, delimiter, 0)
  {
    var posStart: nat := 0;
    res := [];
    var posEnd: Option<nat> := Find(s, delimiter, posStart);
    while posEnd.Some?
      invariant Halfway(res, s, delimiter, posStart, posEnd)
      decreases |s| - posStart
    {
      HalfwayNext(res, s, delimiter, posStart, posEnd.value);
      var token := s[posStart..posEnd.value];
      posStart := posEnd.value + |delimiter|;
      res := res + [token];
      posEnd := Find(s, delimiter, posStart);
    }
    CollectLast(res, s, delimiter, posStart);
    res := res + [s[posStart..]];
  }

  /** Pieces with a delimiter between any two. */
  function Rejoin(pieces: seq<string>, d: string): string
    requires pieces != []
  {
    if |pieces| == 1 then pieces[0] else pieces[0] + (d + Rejoin(pieces[1..], d))
  }

  ghost predicate Free(s: string, d: string) {
    forall k :: 0 <= k ==> !OccursAt(s, d, k)
  }

  /** No delimiter is in the text in front of the first one. */
  lemma FreeBefore(s: string, d: string, p: nat, e: nat)
    requires d != [] && p <= e <= |s|
    requires match Find(s, d, p) case None => e == |s| case Some(k) => e == k
    ensures Free(s[p..e], d)
  {
    FindIsFirst(s, d, p);
    forall k | 0 <= k ensures !OccursAt(s[p..e], d, k) {
      OccursInside(s, d, p, e, k);
    }
  }

  ghost predicate AllFree(pieces: seq<string>, d: string) {
    forall i :: 0 <= i < |pieces| ==> Free(pieces[i], d)
  }

  /** The pieces are all there is of a text, and none has a delimiter in it. */
  ghost predicate Whole(pieces: seq<string>, d: string, text: string) {
    pieces != [] && Rejoin(pieces, d) == text && AllFree(pieces, d)
  }

  lemma WholeOne(text: string, d: string)
    requires Free(text, d)
    ensures Whole([text], d, text)
  {
  }

  lemma WholeCons(first: string, pieces: seq<string>, d: string, text: string)
    requires Free(first, d) && Whole(pieces, d, text)
    ensures Whole([first] + pieces, d, first + (d + text))
  {
  }

  /** The pieces if there is one more delimiter, and if there is none. */
  lemma PiecesNext(s: string, d: string, p: nat, e: nat)
    requires d != [] && p <= |s| && Find(s, d, p) == Some(e)
    ensures p <= e && e + |d| <= |s|
    ensures Pieces(s, d, p) == [s[p..e]] + Pieces(s, d, e + |d|)
    ensures Free(s[p..e], d) && s[p..] == s[p..e] + (d + s[e + |d|..])
  {
    FindIsFirst(s, d, p);
    FreeBefore(s, d, p, e);
    SplitTwice(s, p, e, e + |d|);
  }

  lemma PiecesLast(s: string, d: string, p: nat)
    requires d != [] && p <= |s| && Find(s, d, p) == None
    ensures Pieces(s, d, p) == [s[p..]] && Free(s[p..], d)
  {
    FreeBefore(s, d, p, |s|);
    assert s[p..] == s[p..|s|];
  }

  /** Splitting loses nothing, and leaves no delimiter in any piece. */
  lemma {:induction false} PiecesRejoin(s: string, d: string, p: nat)
    requires d != [] && p <= |s|
    ensures Whole(Pieces(s, d, p), d, s[p..])
    decreases |s| - p
  {
    match Find(s, d, p)
    case None =>
      PiecesLast(s, d, p);
      WholeOne(s[p..], d);
    case Some(e) =>
      PiecesNext(s, d, p, e);
      PiecesRejoin(s, d, e + |d|);
      WholeCons(s[p..e], Pieces(s, d, e + |d|), d, s[e + |d|..]);
  }

  lemma SplitTwice(s: string, p: nat, a: nat, b: nat)
    requires p <= a <= b <= |s|
    ensures s[p..] == s[p..a] + (s[a..b] + s[b..])
  {
  }

  lemma OccursInside(s: string, d: string, p: nat, e: nat, k: nat)
    requires p <= e <= |s|
    ensures OccursAt(s[p..e], d, k) ==> OccursAt(s, d, p + k) && p + k + |d| <= e
  {
    if OccursAt(s[p..e], d, k) {
      SubSlice(s, p, e, k, k + |d|);
    }
  }

  /** The text with every newline replaced. */
  function Semicolons(s: string): (r: string)
    ensures |r| == |s|
  {
    seq(|s|, i requires 0 <= i < |s| => if s[i] == '\n' then ';' else s[i])
  }

  function Terminated(lines: seq<string>): string {
    if lines == [] then [] else lines[0] + ";" + Terminated(lines[1..])
  }

  lemma {:induction false} TerminatedAppend(lines: seq<string>, line: string)
    ensures Terminated(lines + [line]) == Terminated(lines) + line + ";"
  {
    if lines == [] {
      assert lines + [line] == [line] && [line][1..] == [];
    } else {
      assert (lines + [line])[1..] == lines[1..] + [line];
      TerminatedAppend(lines[1..], line);
    }
  }

  lemma SemicolonsConcat(a: string, b: string)
    ensures Semicolons(a + b) == Semicolons(a) + Semicolons(b)
  {
  }

  lemma NoNewlineStays(a: string)
    requires Free(a, "\n")
    ensures Semicolons(a) == a
  {
    forall i | 0 <= i < |a| ensures a[i] != '\n' {
      assert !OccursAt(a, "\n", i);
      assert a[i..i + 1] == [a[i]];
    }
  }

  lemma {:induction false} TerminatedPieces(pieces: seq<string>)
    requires pieces != []
    requires AllFree(pieces, "\n")
    ensures Terminated(pieces) == Semicolons(Rejoin(pieces, "\n")) + ";"
  {
    NoNewlineStays(pieces[0]);
    if |pieces| == 1 {
      assert Terminated(pieces[1..]) == [];
    } else {
      var rest := Rejoin(pieces[1..], "\n");
      TerminatedPieces(pieces[1..]);
      SemicolonsConcat("\n", rest);
      SemicolonsConcat(pieces[0], "\n" + rest);
      assert Semicolons("\n") == ";";
    }
  }

  /** The COMMAND case of the command handler: the string for execute_command is the
      payload with each newline replaced by a semicolon, and one more at its end. */
  method CommandList(payload: string) returns (exec: string)
    ensures exec == Semicolons(payload) + ";"
    ensures |exec| == |payload| + 1 && exec[|payload|] == ';'
    ensures forall i :: 0 <= i < |payload| ==> exec[i] == if payload[i] == '\n' then ';' else payload[i]
  {
    var lines := SplitString(payload, "\n");
    exec := "";
    for i := 0 to |lines|
      invariant exec == Terminated(lines[..i])
    {
      TerminatedAppend(lines[..i], lines[i]);
      assert lines[..i + 1] == lines[..i] + [lines[i]];
      exec := exec + lines[i];
      exec := exec + ";";
    }
    assert lines[..|lines|] == lines;
    PiecesRejoin(payload, "\n", 0);
    assert payload[0..] == payload;
    TerminatedPieces(lines);
  }
}
