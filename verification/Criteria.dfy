/** The criteria of a command, as in [title="a" workspace="b"]: the scanner, the
    meaning of each pair, and the printer that the scanner inverts. */
module Criteria {
  import opened Helpers
  import opened Text
  import opened Numbers

  datatype Token =
    | All | AppId | ConId | ConMark | Floating | Shell | Tiling | Title | Urgent | Workspace | Pid | Invalid

  /** A pattern is the word __focused__ or a regular expression. */
  datatype Pattern = Focused | Regex(source: string)

  datatype Age = Unset | Latest | Oldest

  /** The fields of a criteria object that tokens set. */
  datatype Fields = Fields(
    title: Option<Pattern>, shell: Option<Pattern>, appId: Option<Pattern>, conMark: Option<Pattern>,
    conId: int, all: bool, floating: bool, tiling: bool, urgent: Age, workspace: Option<Pattern>, pid: int)

  const NO_FIELDS := Fields(None, None, None, None, 0, false, false, false, Unset, None, 0)

  predicate IsEmpty(f: Fields) {
    f.title.None? && f.shell.None? && !f.all && f.appId.None? && f.conMark.None? && f.conId == 0 &&
    !f.floating && !f.tiling && f.urgent.Unset? && f.workspace.None? && f.pid == 0
  }

  datatype Error =
    | NoCriteria | QuoteMismatch | NoClosingBrace | EmptyCriteria
    | NotRecognized(name: string) | NeedsValue(name: string) | BadRegex(value: string)
    | BadConId | BadUrgent | BadPid

  /** What the library for regular expressions and the compositor answer. */
  datatype Env = Env(compiles: string -> bool, focusedId: int)

  datatype Acceptance = Accepted(fields: Fields) | Rejected(error: Error)

  function TokenFromName(name: string): (t: Token)
    ensures name == "" ==> t == Invalid
  {
    if name == "all" then All
    else if name == "app_id" then AppId
    else if name == "con_id" then ConId
    else if name == "con_mark" then ConMark
    else if name == "shell" then Shell
    else if name == "title" then Title
    else if name == "urgent" then Urgent
    else if name == "workspace" then Workspace
    else if name == "tiling" then Tiling
    else if name == "floating" then Floating
    else if name == "pid" then Pid
    else Invalid
  }

  const FOCUSED := "__focused__"

  /** pattern_create. */
  function MakePattern(value: string, env: Env): Option<Pattern> {
    if value == FOCUSED then Some(Focused)
    else if env.compiles(value) then Some(Regex(value))
    else None
  }

  function Latests(): set<string> {
    {"latest", "newest", "last", "recent"}
  }

  function Oldests(): set<string> {
    {"oldest", "first"}
  }

  /** A 32-bit pid_t. */
  function ToPid(n: nat): int {
    var low := n % 0x1_0000_0000;
    if low < 0x8000_0000 then low else low - 0x1_0000_0000
  }

  lemma ToPidWraps(n: nat)
    ensures FitsInt32(ToPid(n)) && (ToPid(n) - n) % 0x1_0000_0000 == 0
  {
  }

  function AcceptPattern(p: Option<Pattern>, value: string, store: Option<Pattern> -> Fields): Acceptance {
    if p.None? then Rejected(BadRegex(value)) else Accepted(store(p))
  }

  /** What parse_token makes of a pair. An empty name is no token, so it is rejected. */
  function Accept(f: Fields, name: string, value: Option<string>, env: Env): (r: Acceptance)
    ensures r.Accepted? ==> name != ""
  {
    var token := TokenFromName(name);
    if token.Invalid? then Rejected(NotRecognized(name))
    else if value.None? && !NeedsNoValue(token) then Rejected(NeedsValue(name))
    else AcceptToken(f, token, value, env)
  }

  predicate NeedsNoValue(token: Token) {
    token.All? || token.Floating? || token.Tiling?
  }

  function AcceptToken(f: Fields, token: Token, value: Option<string>, env: Env): Acceptance
    requires !token.Invalid? && (value.None? ==> NeedsNoValue(token))
  {
    match token
    case All => Accepted(f.(all := true))
    case Floating => Accepted(f.(floating := true))
    case Tiling => Accepted(f.(tiling := true))
    case Title => AcceptPattern(MakePattern(value.value, env), value.value, p => f.(title := p))
    case Shell => AcceptPattern(MakePattern(value.value, env), value.value, p => f.(shell := p))
    case AppId => AcceptPattern(MakePattern(value.value, env), value.value, p => f.(appId := p))
    case ConMark => AcceptPattern(MakePattern(value.value, env), value.value, p => f.(conMark := p))
    case Workspace => AcceptPattern(MakePattern(value.value, env), value.value, p => f.(workspace := p))
    case ConId =>
      if value.value == FOCUSED then Accepted(f.(conId := env.focusedId))
      else
        var (number, rest) := Strtoul(value.value);
        if rest == "" then Accepted(f.(conId := number % 0x1_0000_0000)) else Rejected(BadConId)
    case Urgent =>
      if value.value in Latests() then Accepted(f.(urgent := Latest))
      else if value.value in Oldests() then Accepted(f.(urgent := Oldest))
      else Rejected(BadUrgent)
    case Pid =>
      var (number, rest) := Strtoul(value.value);
      if rest == "" then Accepted(f.(pid := ToPid(number))) else Rejected(BadPid)
  }

  /** parse_token as parse sees it: given the fields and a pair, new fields or an error. */
  type TokenParser = (Fields, string, Option<string>) -> Acceptance

  function TokenParserOf(env: Env): TokenParser {
    (f, name, value) => Accept(f, name, value, env)
  }

  /** All that parse needs of it in order to terminate. */
  ghost predicate RejectsEmptyName(accept: TokenParser) {
    forall f, value :: accept(f, "", value).Rejected?
  }

  lemma ParseTokenRejectsEmptyName(env: Env)
    ensures RejectsEmptyName(TokenParserOf(env))
  {
    forall f, value ensures TokenParserOf(env)(f, "", value).Rejected? {
      assert TokenFromName("") == Invalid;
    }
  }

  // ---------- The scanner ----------

  function SkipBlanks(s: string, p: nat): (q: nat)
    requires p <= |s|
    ensures p <= q <= |s|
    decreases |s| - p
  {
    if p < |s| && s[p] == ' ' then SkipBlanks(s, p + 1) else p
  }

  predicate NameChar(c: char) {
    'a' <= c <= 'z' || c == '_'
  }

  function NameEnd(s: string, p: nat): (q: nat)
    requires p <= |s|
    ensures p <= q <= |s|
    decreases |s| - p
  {
    if p < |s| && NameChar(s[p]) then NameEnd(s, p + 1) else p
  }

  /** The closing quote: the first one that has no backslash in front of it. */
  function QuotedEnd(s: string, p: nat): (q: Option<nat>)
    requires 0 < p <= |s|
    ensures q.Some? ==> p <= q.value < |s|
    decreases |s| - p
  {
    if p == |s| then None
    else if s[p] != '"' || s[p - 1] == '\\' then QuotedEnd(s, p + 1)
    else Some(p)
  }

  function BareEnd(s: string, p: nat): (q: nat)
    requires p <= |s|
    ensures p <= q <= |s|
    decreases |s| - p
  {
    if p < |s| && s[p] != ' ' && s[p] != ']' then BareEnd(s, p + 1) else p
  }

  /** Takes away each backslash in front of a quote, from position p on. */
  function UnescapeFrom(v: string, p: nat): string
    requires p <= |v|
    decreases |v| - p
  {
    if p == |v| then []
    else if v[p] == '\\' && p + 1 < |v| && v[p + 1] == '"' then ['"'] + UnescapeFrom(v, p + 2)
    else [v[p]] + UnescapeFrom(v, p + 1)
  }

  function Unescape(v: string): string {
    UnescapeFrom(v, 0)
  }

  /** A pair that was read, and the position behind it. */
  datatype Item = Item(name: string, value: Option<string>, next: nat)

  /** What follows a name and the blanks behind it. */
  function ReadAfterName(s: string, name: string, eq: nat): (r: Option<Item>)
    requires eq <= |s|
    ensures r.Some? ==> r.value.name == name && eq <= r.value.next <= |s|
  {
    if eq < |s| && s[eq] == '=' then
      var valueStart := SkipBlanks(s, eq + 1);
      if valueStart < |s| && s[valueStart] == '"' then
        var end := QuotedEnd(s, valueStart + 1);
        if end.None? then None
        else Some(Item(name, Some(Unescape(s[valueStart + 1..end.value])), end.value + 1))
      else
        var end := BareEnd(s, valueStart);
        Some(Item(name, Some(Unescape(s[valueStart..end])), end))
    else Some(Item(name, None, eq))
  }

  /** One round of parse's loop up to parse_token; None is an unclosed quote. */
  function ReadItem(s: string, p: nat): (r: Option<Item>)
    requires p <= |s|
    ensures r.Some? ==> p <= r.value.next <= |s| && (r.value.name != "" ==> p < r.value.next)
  {
    var nameStart := SkipBlanks(s, p);
    var nameEnd := NameEnd(s, nameStart);
    ReadAfterName(s, s[nameStart..nameEnd], SkipBlanks(s, nameEnd))
  }

  /** The fields, and the length of the text that was used. */
  datatype Parsed = Parsed(fields: Fields, length: nat) | Failed(error: Error)

  function ParseList(s: string, p: nat, f: Fields, accept: TokenParser): (r: Parsed)
    requires p <= |s| && RejectsEmptyName(accept)
    ensures r.Parsed? ==> p < r.length <= |s| && s[r.length - 1] == ']'
    decreases |s| - p
  {
    if p < |s| && s[p] != ']' then
      match ReadItem(s, p)
      case None => Failed(QuoteMismatch)
      case Some(item) =>
        match accept(f, item.name, item.value)
        case Rejected(error) => Failed(error)
        case Accepted(g) => ParseList(s, SkipBlanks(s, item.next), g, accept)
    else if p == |s| then Failed(NoClosingBrace)
    else if IsEmpty(f) then Failed(EmptyCriteria)
    else Parsed(f, p + 1)
  }

  /** criteria::parse. */
  function Parse(s: string, accept: TokenParser): (r: Parsed)
    requires RejectsEmptyName(accept)
    ensures r.Parsed? ==> 0 < r.length <= |s| && s[r.length - 1] == ']'
  {
    var head := SkipBlanks(s, 0);
    if head == |s| || s[head] != '[' then Failed(NoCriteria)
    else ParseList(s, head + 1, NO_FIELDS, accept)
  }

  // ---------- The object ----------

  /** A criteria object while and after it parses. */
  class CriteriaObject {
    var fields: Fields
    var raw: Option<string>
    var error: Option<Error>

    constructor ()
      ensures fields == NO_FIELDS && raw == None && error == None
    {
      fields, raw, error := NO_FIELDS, None, None;
    }

    method SkipSpaces(s: string, p: nat) returns (head: nat)
      requires p <= |s|
      ensures head == SkipBlanks(s, p)
    {
      head := p;
      while head < |s| && s[head] == ' '
        invariant p <= head <= |s| && SkipBlanks(s, p) == SkipBlanks(s, head)
      {
        head := head + 1;
      }
    }

    /** Copies the value, and leaves out the backslashes in front of quotes. */
    method Unescaped(value: string) returns (copy: string)
      ensures copy == Unescape(value)
    {
      if '\\' !in value {
        NothingToUnescape(value);
        return value;
      }
      copy := "";
      var readHead := 0;
      while readHead < |value|
        invariant 0 <= readHead <= |value|
        invariant copy + UnescapeFrom(value, readHead) == Unescape(value)
      {
        ghost var before := copy;
        if value[readHead] == '\\' && readHead + 1 < |value| && value[readHead + 1] == '"' {
          readHead := readHead + 1;
        }
        copy := copy + [value[readHead]];
        readHead := readHead + 1;
        Concatenation(before, [value[readHead - 1]], UnescapeFrom(value, readHead));
      }
    }

    /** parse_token. */
    method ParseToken(name: string, value: Option<string>, accept: TokenParser) returns (ok: bool)
      requires error == None
      modifies this
      ensures raw == old(raw)
      ensures match accept(old(fields), name, value)
              case Accepted(f) => ok && fields == f && error == None
              case Rejected(e) => !ok && error == Some(e)
    {
      match accept(fields, name, value) {
        case Rejected(e) =>
          error := Some(e);
          return false;
        case Accepted(f) =>
          fields := f;
          return true;
      }
    }

    /** The token value behind an equals sign: quoted, or up to a blank or a bracket. */
    method ReadValue(s: string, start: nat) returns (value: Option<string>, head: nat)
      requires start <= |s|
      ensures head <= |s|
      ensures if start < |s| && s[start] == '"' then
                (match QuotedEnd(s, start + 1)
                 case None => value == None
                 case Some(q) => value == Some(Unescape(s[start + 1..q])) && head == q + 1)
              else value == Some(Unescape(s[start..BareEnd(s, start)])) && head == BareEnd(s, start)
    {
      head := start;
      var inQuotes := false;
      if head < |s| && s[head] == '"' {
        inQuotes := true;
        head := head + 1;
      }
      var valueStart := head;
      if inQuotes {
        while head < |s| && (s[head] != '"' || s[head - 1] == '\\')
          invariant valueStart <= head <= |s| && QuotedEnd(s, head) == QuotedEnd(s, valueStart)
        {
          head := head + 1;
        }
        if head == |s| {
          return None, head;
        }
      } else {
        while head < |s| && s[head] != ' ' && s[head] != ']'
          invariant valueStart <= head <= |s| && BareEnd(s, head) == BareEnd(s, valueStart)
        {
          head := head + 1;
        }
      }
      var raw := s[valueStart..head];
      if inQuotes {
        head := head + 1;
        inQuotes := false;
      }
      var unescaped := Unescaped(raw);
      return Some(unescaped), head;
    }

    /** One round of the loop up to parse_token. */
    method ReadPair(s: string, p: nat) returns (item: Option<Item>)
      requires p <= |s|
      ensures item == ReadItem(s, p)
    {
      var head := SkipSpaces(s, p);
      var nameStart := head;
      while head < |s| && NameChar(s[head])
        invariant nameStart <= head <= |s| && NameEnd(s, head) == NameEnd(s, nameStart)
      {
        head := head + 1;
      }
      var name := s[nameStart..head];
      head := SkipSpaces(s, head);
      if head < |s| && s[head] == '=' {
        head := head + 1;
        head := SkipSpaces(s, head);
        var value, next := ReadValue(s, head);
        if value.None? {
          return None;
        }
        return Some(Item(name, value, next));
      }
      return Some(Item(name, None, head));
    }

    /** The loop of parse behind the opening bracket. */
    method ParsePairs(s: string, p: nat, accept: TokenParser) returns (ok: bool)
      requires p <= |s| && error == None && RejectsEmptyName(accept)
      modifies this
      ensures match ParseList(s, p, old(fields), accept)
              case Parsed(f, length) => ok && fields == f && raw == Some(s[..length])
              case Failed(e) => !ok && error == Some(e)
    {
      var head := p;
      while head < |s| && s[head] != ']'
        invariant head <= |s| && error == None
        invariant ParseList(s, head, fields, accept) == ParseList(s, p, old(fields), accept)
        decreases |s| - head
      {
        var item := ReadPair(s, head);
        if item.None? {
          error := Some(QuoteMismatch);
          return false;
        }
        var accepted := ParseToken(item.value.name, item.value.value, accept);
        if !accepted {
          return false;
        }
        head := SkipSpaces(s, item.value.next);
      }
      if head == |s| {
        error := Some(NoClosingBrace);
        return false;
      }
      if IsEmpty(fields) {
        error := Some(EmptyCriteria);
        return false;
      }
      head := head + 1;
      raw := Some(s[..head]);
      return true;
    }

    /** parse, on a fresh object. */
    method ParseText(s: string, accept: TokenParser) returns (ok: bool)
      requires fields == NO_FIELDS && error == None && RejectsEmptyName(accept)
      modifies this
      ensures match Parse(s, accept)
              case Parsed(f, length) => ok && fields == f && raw == Some(s[..length])
              case Failed(e) => !ok && error == Some(e)
    {
      var head := SkipSpaces(s, 0);
      if head == |s| || s[head] != '[' {
        error := Some(NoCriteria);
        return false;
      }
      ok := ParsePairs(s, head + 1, accept);
    }
  }

  lemma {:induction false} NothingToUnescapeFrom(v: string, p: nat)
    requires p <= |v| && '\\' !in v
    ensures UnescapeFrom(v, p) == v[p..]
    decreases |v| - p
  {
    if p < |v| {
      NothingToUnescapeFrom(v, p + 1);
    }
  }

  lemma NothingToUnescape(v: string)
    requires '\\' !in v
    ensures Unescape(v) == v
  {
    NothingToUnescapeFrom(v, 0);
  }

  // ---------- parse uses exactly raw ----------

  predicate Agree(s: string, t: string, n: nat) {
    n <= |s| && n <= |t| && forall i :: 0 <= i < n ==> s[i] == t[i]
  }

  lemma {:induction false} SkipBlanksLocal(s: string, t: string, n: nat, p: nat)
    requires Agree(s, t, n) && p <= n && SkipBlanks(s, p) < n
    ensures SkipBlanks(t, p) == SkipBlanks(s, p)
    decreases n - p
  {
    if s[p] == ' ' { SkipBlanksLocal(s, t, n, p + 1); }
  }

  lemma {:induction false} NameEndLocal(s: string, t: string, n: nat, p: nat)
    requires Agree(s, t, n) && p <= n && NameEnd(s, p) < n
    ensures NameEnd(t, p) == NameEnd(s, p)
    decreases n - p
  {
    if NameChar(s[p]) { NameEndLocal(s, t, n, p + 1); }
  }

  lemma {:induction false} QuotedEndLocal(s: string, t: string, n: nat, p: nat)
    requires Agree(s, t, n) && 0 < p <= n && QuotedEnd(s, p).Some? && QuotedEnd(s, p).value < n
    ensures QuotedEnd(t, p) == QuotedEnd(s, p)
    decreases n - p
  {
    if s[p] != '"' || s[p - 1] == '\\' { QuotedEndLocal(s, t, n, p + 1); }
  }

  lemma {:induction false} BareEndLocal(s: string, t: string, n: nat, p: nat)
    requires Agree(s, t, n) && p <= n && BareEnd(s, p) < n
    ensures BareEnd(t, p) == BareEnd(s, p)
    decreases n - p
  {
    if s[p] != ' ' && s[p] != ']' { BareEndLocal(s, t, n, p + 1); }
  }

  lemma SameSlice(s: string, t: string, n: nat, a: nat, b: nat)
    requires Agree(s, t, n) && a <= b <= n
    ensures s[a..b] == t[a..b]
  {
  }

  lemma ReadAfterNameLocal(s: string, t: string, n: nat, name: string, eq: nat)
    requires Agree(s, t, n) && eq <= n && ReadAfterName(s, name, eq).Some? && ReadAfterName(s, name, eq).value.next < n
    ensures ReadAfterName(t, name, eq) == ReadAfterName(s, name, eq)
  {
    if s[eq] == '=' {
      var valueStart := SkipBlanks(s, eq + 1);
      SkipBlanksLocal(s, t, n, eq + 1);
      if s[valueStart] == '"' {
        QuotedEndLocal(s, t, n, valueStart + 1);
        SameSlice(s, t, n, valueStart + 1, QuotedEnd(s, valueStart + 1).value);
      } else {
        BareEndLocal(s, t, n, valueStart);
        SameSlice(s, t, n, valueStart, BareEnd(s, valueStart));
      }
    }
  }

  lemma ReadItemLocal(s: string, t: string, n: nat, p: nat)
    requires Agree(s, t, n) && p <= n && ReadItem(s, p).Some? && ReadItem(s, p).value.next < n
    ensures ReadItem(t, p) == ReadItem(s, p)
  {
    var nameStart := SkipBlanks(s, p);
    var nameEnd := NameEnd(s, nameStart);
    SkipBlanksLocal(s, t, n, p);
    NameEndLocal(s, t, n, nameStart);
    SkipBlanksLocal(s, t, n, nameEnd);
    SameSlice(s, t, n, nameStart, nameEnd);
    ReadAfterNameLocal(s, t, n, s[nameStart..nameEnd], SkipBlanks(s, nameEnd));
  }

  lemma {:induction false} ParseListLocal(s: string, t: string, p: nat, f: Fields, accept: TokenParser)
    requires RejectsEmptyName(accept) && p <= |s| && ParseList(s, p, f, accept).Parsed?
    requires Agree(s, t, ParseList(s, p, f, accept).length)
    ensures p <= |t| && ParseList(t, p, f, accept) == ParseList(s, p, f, accept)
    decreases |s| - p
  {
    var n := ParseList(s, p, f, accept).length;
    if s[p] != ']' {
      var item := ReadItem(s, p).value;
      var next := SkipBlanks(s, item.next);
      ParseListLocal(s, t, next, accept(f, item.name, item.value).fields, accept);
      ReadItemLocal(s, t, n, p);
      SkipBlanksLocal(s, t, n, item.next);
    }
  }

  /** A successful parse depends on nothing behind the text that it calls raw: whatever
      follows, raw is parsed in the same way and up to the same bracket. */
  lemma ParseIsLocal(s: string, rest: string, accept: TokenParser)
    requires RejectsEmptyName(accept) && Parse(s, accept).Parsed?
    ensures Parse(s[..Parse(s, accept).length] + rest, accept) == Parse(s, accept)
  {
    var n := Parse(s, accept).length;
    var t := s[..n] + rest;
    SkipBlanksLocal(s, t, n, 0);
    ParseListLocal(s, t, SkipBlanks(s, 0) + 1, NO_FIELDS, accept);
  }

  // ---------- Printing ----------

  /** A backslash in front of each quote. */
  function Escape(v: string): string {
    if v == [] then [] else (if v[0] == '"' then ['\\', '"'] else [v[0]]) + Escape(v[1..])
  }

  /** t stands in s at position p. */
  predicate At(s: string, p: nat, t: string) {
    p + |t| <= |s| && forall i :: 0 <= i < |t| ==> t[i] == s[p + i]
  }

  lemma AtIsSlice(s: string, p: nat, t: string)
    requires At(s, p, t)
    ensures s[p..p + |t|] == t
  {
  }

  lemma AtConcat(s: string, p: nat, t: string, u: string)
    requires At(s, p, t + u)
    ensures At(s, p, t) && At(s, p + |t|, u)
  {
    forall i | 0 <= i < |t| ensures t[i] == s[p + i] {
      assert (t + u)[i] == t[i];
    }
    forall i | 0 <= i < |u| ensures u[i] == s[p + |t| + i] {
      assert (t + u)[|t| + i] == u[i];
    }
  }

  lemma AtFirst(s: string, p: nat, t: string)
    requires At(s, p, t) && t != []
    ensures p < |s| && s[p] == t[0]
  {
    assert t[0] == s[p + 0];
  }

  lemma AtSecond(s: string, p: nat, t: string)
    requires At(s, p, t) && |t| > 1
    ensures p + 1 < |s| && s[p + 1] == t[1]
  {
  }

  lemma {:induction false} UnescapeAt(s: string, p: nat, v: string)
    requires At(s, p, Escape(v)) && p + |Escape(v)| == |s|
    ensures UnescapeFrom(s, p) == v
    decreases |v|
  {
    if v != [] {
      var head, tail := if v[0] == '"' then ['\\', '"'] else [v[0]], v[1..];
      AtConcat(s, p, head, Escape(tail));
      AtFirst(s, p, head);
      if v[0] == '"' {
        AtSecond(s, p, head);
      } else {
        EscapeStart(tail);
        if Escape(tail) != [] { AtFirst(s, p + 1, Escape(tail)); }
      }
      UnescapeAt(s, p + |head|, tail);
    }
  }

  /** Unescaping undoes escaping, for every value. */
  lemma UnescapeEscape(v: string)
    ensures Unescape(Escape(v)) == v
  {
    UnescapeAt(Escape(v), 0, v);
  }

  /** What an escaped value starts with: never an unescaped quote. */
  lemma EscapeStart(v: string)
    ensures Escape(v) != [] ==> Escape(v)[0] != '"'
  {
  }

  /** How a user writes a pair: the value in quotes or without them, or a name alone. */
  datatype Pair = Quoted(name: string, value: string) | Bare(name: string, value: string) | Alone(name: string)

  function ValueOf(p: Pair): Option<string> {
    if p.Alone? then None else Some(p.value)
  }

  predicate IsName(name: string) {
    name != "" && forall i :: 0 <= i < |name| ==> NameChar(name[i])
  }

  /** The name, and behind an equals sign the escaped value, in quotes or without them. */
  function PrintPair(p: Pair): string {
    match p
    case Quoted(name, value) => name + ("=\"" + (Escape(value) + "\""))
    case Bare(name, value) => name + ("=" + Escape(value))
    case Alone(name) => name
  }

  /** Which pairs can be written in these ways: a quoted value does not end in a backslash;
      one without quotes is not empty and has no blank and no closing bracket in it. */
  predicate Writable(p: Pair) {
    IsName(p.name) &&
    match p
    case Quoted(_, value) => !EndsInBackslash(value)
    case Bare(_, value) => value != "" && ' ' !in value && ']' !in value
    case Alone(_) => true
  }

  function PrintPairs(pairs: seq<Pair>): seq<string> {
    seq(|pairs|, i requires 0 <= i < |pairs| => PrintPair(pairs[i]))
  }

  /** What is between the first text and the rest of a list. */
  function Gap(texts: seq<string>): string {
    if |texts| == 1 then "" else " "
  }

  /** What follows the opening bracket. */
  function PrintRest(texts: seq<string>): string {
    if texts == [] then "]" else texts[0] + (Gap(texts) + PrintRest(texts[1..]))
  }

  function Print(pairs: seq<Pair>): string {
    "[" + PrintRest(PrintPairs(pairs))
  }

  /** parse_token applied to one pair after another. */
  function AcceptAll(f: Fields, pairs: seq<Pair>, accept: TokenParser): Acceptance
    decreases pairs
  {
    if pairs == [] then Accepted(f)
    else match accept(f, pairs[0].name, ValueOf(pairs[0]))
      case Rejected(e) => Rejected(e)
      case Accepted(g) => AcceptAll(g, pairs[1..], accept)
  }

  lemma {:induction false} NameEndAt(s: string, p: nat, name: string)
    requires At(s, p, name) && forall i :: 0 <= i < |name| ==> NameChar(name[i])
    requires p + |name| < |s| && !NameChar(s[p + |name|])
    ensures NameEnd(s, p) == p + |name|
    decreases |name|
  {
    if name != [] {
      AtFirst(s, p, name);
      AtConcat(s, p, [name[0]], name[1..]) by { assert name == [name[0]] + name[1..]; }
      NameEndAt(s, p + 1, name[1..]);
    }
  }

  predicate EndsInBackslash(v: string) {
    v != [] && v[|v| - 1] == '\\'
  }

  /** The scan for the closing quote stops right behind an escaped value if and only if
      the value does not end in a backslash (which would escape the closing quote). */
  lemma QuotedEndAt(s: string, p: nat, v: string)
    requires 0 < p && At(s, p, Escape(v) + "\"") && s[p - 1] != '\\'
    ensures QuotedEnd(s, p) == Some(p + |Escape(v)|) <==> !EndsInBackslash(v)
    ensures QuotedEnd(s, p).Some? ==> QuotedEnd(s, p).value >= p + |Escape(v)|
    decreases |v|
  {
    AtConcat(s, p, Escape(v), "\"");
    AtFirst(s, p + |Escape(v)|, "\"");
    if v != [] {
      QuotedEndInside(s, p, v, s[p - 1]);
    }
  }

  lemma {:induction false} QuotedEndInside(s: string, p: nat, v: string, before: char)
    requires 0 < p && v != [] && At(s, p, Escape(v)) && p + |Escape(v)| < |s| && s[p + |Escape(v)|] == '"'
    ensures QuotedEnd(s, p) ==
            if EndsInBackslash(v) then QuotedEnd(s, p + |Escape(v)| + 1) else Some(p + |Escape(v)|)
    decreases |v|
  {
    var head := if v[0] == '"' then ['\\', '"'] else [v[0]];
    var tail := v[1..];
    AtConcat(s, p, head, Escape(tail));
    AtFirst(s, p, head);
    var q := p + |head|;
    if v[0] == '"' {
      AtSecond(s, p, head);
      assert QuotedEnd(s, p) == QuotedEnd(s, p + 1) == QuotedEnd(s, q);
    } else {
      assert QuotedEnd(s, p) == QuotedEnd(s, q);
    }
    if tail == [] {
      assert Escape(tail) == [];
    } else {
      QuotedEndInside(s, q, tail, v[0]);
    }
  }

  /** Where the parts of a printed pair stand. */
  lemma PairParts(s: string, p: nat, pair: Pair)
    requires pair.Quoted? && IsName(pair.name) && At(s, p, PrintPair(pair))
    ensures var eq, e := p + |pair.name|, Escape(pair.value);
            && At(s, p, pair.name) && s[p] != ' ' && s[p] != ']'
            && eq + 1 < |s| && s[eq] == '=' && s[eq + 1] == '"'
            && At(s, eq + 2, e) && At(s, eq + 2, e + "\"")
            && |PrintPair(pair)| == |pair.name| + |e| + 3
  {
    var name, e := pair.name, Escape(pair.value);
    AtConcat(s, p, name, "=\"" + (e + "\""));
    AtConcat(s, p + |name|, "=\"", e + "\"");
    AtConcat(s, p + |name| + 2, e, "\"");
    AtFirst(s, p, name);
    AtFirst(s, p + |name|, "=\"");
    AtSecond(s, p + |name|, "=\"");
    assert NameChar(name[0]);
  }

  lemma ValueOfPair(s: string, name: string, eq: nat, v: string, e: string)
    requires eq + 1 < |s| && s[eq] == '=' && s[eq + 1] == '"' && e == Escape(v) && At(s, eq + 2, e + "\"")
    ensures ReadAfterName(s, name, eq) == Some(Item(name, Some(v), eq + |e| + 3)) <==> !EndsInBackslash(v)
  {
    QuotedEndAt(s, eq + 2, v);
    if EndsInBackslash(v) {
      assert QuotedEnd(s, eq + 2) != Some(eq + 2 + |e|);
    } else {
      UnescapeEscape(v);
      AtConcat(s, eq + 2, e, "\"");
      AtIsSlice(s, eq + 2, e);
    }
  }

  lemma NameIsRead(s: string, p: nat, eq: nat)
    requires p <= eq <= |s| && SkipBlanks(s, p) == p && NameEnd(s, p) == eq && SkipBlanks(s, eq) == eq
    ensures ReadItem(s, p) == ReadAfterName(s, s[p..eq], eq)
  {
  }

  /** The same, for a pair whose parts stand where a printed pair has them. */
  lemma ReadItemOfParts(s: string, p: nat, eq: nat, name: string, v: string)
    requires p < eq && eq + 1 < |s| && s[p] != ' ' && s[eq] == '=' && s[eq + 1] == '"'
    requires NameEnd(s, p) == eq && s[p..eq] == name && At(s, eq + 2, Escape(v) + "\"")
    ensures ReadItem(s, p) == Some(Item(name, Some(v), eq + |Escape(v)| + 3)) <==> !EndsInBackslash(v)
  {
    NameIsRead(s, p, eq);
    ValueOfPair(s, name, eq, v, Escape(v));
  }

  /** Reading a printed pair gives the pair back, and stops behind it, if and only if
      the value does not end in a backslash. */
  lemma ReadItemOfPair(s: string, p: nat, pair: Pair)
    requires pair.Quoted? && IsName(pair.name) && At(s, p, PrintPair(pair))
    ensures ReadItem(s, p) == Some(Item(pair.name, Some(pair.value), p + |PrintPair(pair)|))
            <==> !EndsInBackslash(pair.value)
  {
    PairParts(s, p, pair);
    var eq := p + |pair.name|;
    NameEndAt(s, p, pair.name);
    ReadItemOfParts(s, p, eq, pair.name, pair.value);
  }

  predicate Printable(pairs: seq<Pair>) {
    forall i :: 0 <= i < |pairs| ==> Writable(pairs[i])
  }

  function Outcome(a: Acceptance, length: nat): Parsed {
    match a
    case Rejected(e) => Failed(e)
    case Accepted(f) => if IsEmpty(f) then Failed(EmptyCriteria) else Parsed(f, length)
  }

  /** What parse does behind a pair. */
  function Proceed(a: Acceptance, s: string, next: nat, accept: TokenParser): Parsed
    requires RejectsEmptyName(accept) && next <= |s|
  {
    match a
    case Rejected(error) => Failed(error)
    case Accepted(g) => ParseList(s, next, g, accept)
  }

  lemma ParseListStep(s: string, p: nat, f: Fields, accept: TokenParser, item: Item)
    requires RejectsEmptyName(accept) && p < |s| && s[p] != ']' && ReadItem(s, p) == Some(item)
    ensures ParseList(s, p, f, accept) ==
            Proceed(accept(f, item.name, item.value), s, SkipBlanks(s, item.next), accept)
  {
  }

  /** A gap, and behind it a text that starts with no blank and no equals sign. */
  lemma GapStands(s: string, next: nat, gap: string, rest: string)
    requires gap == "" || gap == " "
    requires At(s, next, gap + rest) && rest != "" && rest[0] != ' ' && rest[0] != '='
    requires gap == "" ==> rest[0] == ']'
    ensures Behind(s, next, next + |gap|) && At(s, next + |gap|, rest)
  {
    AtConcat(s, next, gap, rest);
    AtFirst(s, next + |gap|, rest);
    if gap != "" { AtFirst(s, next, gap); }
  }

  lemma ThreeParts(s: string, p: nat, t: string, a: string, b: string, c: string)
    requires At(s, p, t) && t == a + (b + c)
    ensures At(s, p, a) && At(s, p + |a|, b + c) && |t| == |a| + |b| + |c|
  {
    AtConcat(s, p, a, b + c);
  }

  lemma ParseListEnd(s: string, p: nat, f: Fields, accept: TokenParser)
    requires RejectsEmptyName(accept) && p < |s| && s[p] == ']'
    ensures ParseList(s, p, f, accept) == if IsEmpty(f) then Failed(EmptyCriteria) else Parsed(f, p + 1)
  {
  }

  /** Behind a pair come blanks up to `next`, or none in front of the closing bracket; no
      equals sign follows. */
  predicate Behind(s: string, end: nat, next: nat) {
    && end <= next < |s| && SkipBlanks(s, end) == next && (s[end] == ' ' || s[end] == ']')
    && s[next] != ' ' && s[next] != '='
  }

  lemma QuotedIsRead(s: string, p: nat, pair: Pair, next: nat)
    requires pair.Quoted? && Writable(pair) && At(s, p, PrintPair(pair)) && Behind(s, p + |PrintPair(pair)|, next)
    ensures ReadsTo(s, p, pair, next)
  {
    PairParts(s, p, pair);
    ReadItemOfPair(s, p, pair);
  }

  /** One round reads the pair, and with the blanks behind it gets to `next`. */
  predicate ReadsTo(s: string, p: nat, pair: Pair, next: nat) {
    && p < |s| && s[p] != ']' && next <= |s|
    && var item := ReadItem(s, p);
    && item.Some? && item.value.name == pair.name && item.value.value == ValueOf(pair)
    && item.value.next <= |s| && SkipBlanks(s, item.value.next) == next
  }

  lemma {:induction false} EscapeKeepsOut(v: string, c: char)
    requires c !in v && c != '\\'
    ensures c !in Escape(v)
  {
    if v != "" {
      EscapeKeepsOut(v[1..], c);
    }
  }

  lemma {:induction false} BareEndAt(s: string, p: nat, e: string)
    requires At(s, p, e) && ' ' !in e && ']' !in e
    requires p + |e| < |s| && (s[p + |e|] == ' ' || s[p + |e|] == ']')
    ensures BareEnd(s, p) == p + |e|
    decreases |e|
  {
    if e != "" {
      AtFirst(s, p, e);
      AtConcat(s, p, [e[0]], e[1..]) by { assert e == [e[0]] + e[1..]; }
      BareEndAt(s, p + 1, e[1..]);
    }
  }

  /** Where the parts of a pair without quotes stand. */
  lemma BareParts(s: string, p: nat, pair: Pair, e: string)
    requires pair.Bare? && Writable(pair) && At(s, p, PrintPair(pair)) && e == Escape(pair.value)
    ensures var eq := p + |pair.name|;
            && At(s, p, pair.name) && s[p] != ' ' && s[p] != ']'
            && eq + 1 < |s| && s[eq] == '=' && At(s, eq + 1, e)
            && |PrintPair(pair)| == |pair.name| + 1 + |e| && e != ""
  {
    var name := pair.name;
    AtConcat(s, p, name, "=" + e);
    AtConcat(s, p + |name|, "=", e);
    AtFirst(s, p, name);
    AtFirst(s, p + |name|, "=");
    AtFirst(s, p + |name| + 1, e);
    assert NameChar(name[0]);
  }

  lemma BareEscapes(s: string, p: nat, v: string, e: string)
    requires e == Escape(v) && e != "" && ' ' !in v && ']' !in v && At(s, p, e)
    requires p + |e| < |s| && (s[p + |e|] == ' ' || s[p + |e|] == ']')
    ensures SkipBlanks(s, p) == p && s[p] != '"' && BareEnd(s, p) == p + |e|
    ensures Unescape(s[p..p + |e|]) == v
  {
    EscapeKeepsOut(v, ' ');
    EscapeKeepsOut(v, ']');
    EscapeStart(v);
    AtFirst(s, p, e);
    BareEndAt(s, p, e);
    UnescapeEscape(v);
    AtIsSlice(s, p, e);
  }

  lemma BareValueIsRead(s: string, name: string, eq: nat, v: string, e: string)
    requires e == Escape(v) && e != "" && ' ' !in v && ']' !in v
    requires eq + 1 < |s| && s[eq] == '=' && At(s, eq + 1, e)
    requires eq + 1 + |e| < |s| && (s[eq + 1 + |e|] == ' ' || s[eq + 1 + |e|] == ']')
    ensures ReadAfterName(s, name, eq) == Some(Item(name, Some(v), eq + 1 + |e|))
  {
    var end := eq + 1 + |e|;
    BareEscapes(s, eq + 1, v, e);
    assert BareEnd(s, eq + 1) == end;
  }

  lemma BareIsRead(s: string, p: nat, pair: Pair, next: nat)
    requires pair.Bare? && Writable(pair) && At(s, p, PrintPair(pair)) && Behind(s, p + |PrintPair(pair)|, next)
    ensures ReadsTo(s, p, pair, next)
  {
    var e, eq := Escape(pair.value), p + |pair.name|;
    BareParts(s, p, pair, e);
    NameEndAt(s, p, pair.name);
    NameIsRead(s, p, eq);
    AtIsSlice(s, p, pair.name);
    BareValueIsRead(s, pair.name, eq, pair.value, e);
  }

  lemma NameAloneIsRead(s: string, p: nat, end: nat, next: nat)
    requires p < end && end <= next < |s| && SkipBlanks(s, p) == p && NameEnd(s, p) == end
    requires SkipBlanks(s, end) == next && s[next] != ' ' && s[next] != '='
    ensures ReadItem(s, p) == Some(Item(s[p..end], None, next)) && SkipBlanks(s, next) == next
  {
  }

  lemma AloneIsRead(s: string, p: nat, pair: Pair, next: nat)
    requires pair.Alone? && Writable(pair) && At(s, p, PrintPair(pair)) && Behind(s, p + |PrintPair(pair)|, next)
    ensures ReadsTo(s, p, pair, next)
  {
    AtFirst(s, p, pair.name);
    assert NameChar(pair.name[0]);
    NameEndAt(s, p, pair.name);
    NameAloneIsRead(s, p, p + |pair.name|, next);
    AtIsSlice(s, p, pair.name);
  }

  lemma PairIsRead(s: string, p: nat, pair: Pair, next: nat)
    requires Writable(pair) && At(s, p, PrintPair(pair)) && Behind(s, p + |PrintPair(pair)|, next)
    ensures ReadsTo(s, p, pair, next)
  {
    match pair
    case Quoted(_, _) => QuotedIsRead(s, p, pair, next);
    case Bare(_, _) => BareIsRead(s, p, pair, next);
    case Alone(_) => AloneIsRead(s, p, pair, next);
  }

  /** One printed pair takes parse one round. */
  lemma ParseListPair(s: string, p: nat, pair: Pair, f: Fields, accept: TokenParser, next: nat)
    requires RejectsEmptyName(accept) && ReadsTo(s, p, pair, next)
    ensures p <= |s| && next <= |s|
    ensures ParseList(s, p, f, accept) == Proceed(accept(f, pair.name, ValueOf(pair)), s, next, accept)
  {
    ParseListStep(s, p, f, accept, ReadItem(s, p).value);
  }

  /** A pair, the gap behind it and the rest of a list. */
  predicate Parts(t: string, a: string, b: string, c: string) {
    && t == a + (b + c) && (b == "" || b == " ")
    && c != "" && c[0] != ' ' && c[0] != '=' && (b == "" ==> c[0] == ']')
  }

  lemma PartsStand(s: string, p: nat, t: string, a: string, b: string, c: string)
    requires At(s, p, t) && Parts(t, a, b, c)
    ensures At(s, p, a) && Behind(s, p + |a|, p + |a| + |b|) && At(s, p + |a| + |b|, c)
    ensures |t| == |a| + |b| + |c|
  {
    ThreeParts(s, p, t, a, b, c);
    GapStands(s, p + |a|, b, c);
  }

  predicate StartWithNames(texts: seq<string>) {
    forall i :: 0 <= i < |texts| ==> texts[i] != "" && NameChar(texts[i][0])
  }

  lemma RestStarts(texts: seq<string>, t: string)
    requires StartWithNames(texts) && t == PrintRest(texts)
    ensures t != "" && t[0] != ' ' && t[0] != '='
    ensures texts == [] ==> t[0] == ']'
  {
    if texts != [] {
      assert t[0] == texts[0][0];
    }
  }

  lemma PrintParts(texts: seq<string>, t: string, a: string, b: string, c: string)
    requires texts != [] && StartWithNames(texts) && t == PrintRest(texts)
    requires a == texts[0] && b == Gap(texts) && c == PrintRest(texts[1..])
    ensures Parts(t, a, b, c)
  {
    RestStarts(texts[1..], c);
  }

  /** From position p on there are the texts, each with the gap behind it; the closing
      bracket is at position end. */
  predicate Lies(s: string, p: nat, texts: seq<string>, end: nat)
    decreases |texts|
  {
    if texts == [] then p == end < |s| && s[p] == ']'
    else
      var next := p + |texts[0]| + |Gap(texts)|;
      At(s, p, texts[0]) && Behind(s, p + |texts[0]|, next) && Lies(s, next, texts[1..], end)
  }

  lemma {:induction false} PrintLies(s: string, p: nat, texts: seq<string>, t: string)
    requires StartWithNames(texts) && At(s, p, t) && t == PrintRest(texts)
    ensures t != "" && Lies(s, p, texts, p + |t| - 1)
    decreases |texts|
  {
    RestStarts(texts, t);
    if texts == [] {
      AtFirst(s, p, t);
    } else {
      var a, b, c := texts[0], Gap(texts), PrintRest(texts[1..]);
      PrintParts(texts, t, a, b, c);
      PartsStand(s, p, t, a, b, c);
      PrintLies(s, p + |a| + |b|, texts[1..], c);
    }
  }

  lemma PairsStart(pairs: seq<Pair>)
    requires Printable(pairs)
    ensures StartWithNames(PrintPairs(pairs))
  {
    forall i | 0 <= i < |pairs| ensures PrintPair(pairs[i]) != "" && NameChar(PrintPair(pairs[i])[0]) {
      assert PrintPair(pairs[i])[0] == pairs[i].name[0] && Writable(pairs[i]);
    }
  }

  /** What parse_token makes of some pairs behind the first one. */
  function AcceptRest(a: Acceptance, rest: seq<Pair>, accept: TokenParser): Acceptance {
    match a
    case Rejected(e) => Rejected(e)
    case Accepted(g) => AcceptAll(g, rest, accept)
  }

  lemma AcceptFirst(f: Fields, pairs: seq<Pair>, accept: TokenParser)
    requires pairs != []
    ensures AcceptAll(f, pairs, accept) ==
            AcceptRest(accept(f, pairs[0].name, ValueOf(pairs[0])), pairs[1..], accept)
  {
  }

  lemma FirstStands(s: string, p: nat, texts: seq<string>, a: string, end: nat, next: nat)
    requires texts != [] && a == texts[0] && Lies(s, p, texts, end) && next == p + |a| + |Gap(texts)|
    ensures At(s, p, a) && Behind(s, p + |a|, next) && Lies(s, next, texts[1..], end)
  {
  }

  lemma RestOfTexts(pairs: seq<Pair>, texts: seq<string>)
    requires pairs != [] && texts == PrintPairs(pairs)
    ensures texts[0] == PrintPair(pairs[0]) && texts[1..] == PrintPairs(pairs[1..])
  {
  }

  /** One round takes parse from a list to the rest of it. */
  lemma ParseFirstPair(s: string, p: nat, pair: Pair, f: Fields, accept: TokenParser, next: nat)
    requires RejectsEmptyName(accept) && Writable(pair)
    requires At(s, p, PrintPair(pair)) && Behind(s, p + |PrintPair(pair)|, next)
    ensures p < |s| && next <= |s|
    ensures ParseList(s, p, f, accept) == Proceed(accept(f, pair.name, ValueOf(pair)), s, next, accept)
  {
    PairIsRead(s, p, pair, next);
    ParseListPair(s, p, pair, f, accept, next);
  }

  lemma {:induction false} ParseListOfPairs(s: string, p: nat, pairs: seq<Pair>, texts: seq<string>, end: nat,
                                            f: Fields, accept: TokenParser)
    requires RejectsEmptyName(accept) && Printable(pairs) && texts == PrintPairs(pairs) && Lies(s, p, texts, end)
    ensures p < |s| && ParseList(s, p, f, accept) == Outcome(AcceptAll(f, pairs, accept), end + 1)
    decreases |pairs|
  {
    if pairs == [] {
      ParseListEnd(s, p, f, accept);
    } else {
      var next := p + |texts[0]| + |Gap(texts)|;
      FirstStands(s, p, texts, texts[0], end, next);
      RestOfTexts(pairs, texts);
      ParseFirstPair(s, p, pairs[0], f, accept, next);
      AcceptFirst(f, pairs, accept);
      match accept(f, pairs[0].name, ValueOf(pairs[0]))
      case Rejected(_) =>
      case Accepted(g) => ParseListOfPairs(s, next, pairs[1..], texts[1..], end, g, accept);
    }
  }

  lemma ParseStarts(s: string, head: nat, accept: TokenParser, r: Parsed)
    requires RejectsEmptyName(accept) && head == SkipBlanks(s, 0) < |s| && s[head] == '['
    requires r == ParseList(s, head + 1, NO_FIELDS, accept)
    ensures Parse(s, accept) == r
  {
  }

  lemma PrintStands(s: string, t: string, rest: string)
    requires s == ("[" + t) + rest
    ensures s != "" && s[0] == '[' && At(s, 1, t) && SkipBlanks(s, 0) == 0 && |"[" + t| == 1 + |t|
  {
    AtPrefix("[" + t, rest);
    AtConcat(s, 0, "[", t);
    AtFirst(s, 0, "[");
  }

  lemma ParseLies(s: string, head: nat, pairs: seq<Pair>, end: nat, accept: TokenParser)
    requires RejectsEmptyName(accept) && Printable(pairs) && Lies(s, head + 1, PrintPairs(pairs), end)
    requires head == SkipBlanks(s, 0) < |s| && s[head] == '['
    ensures Parse(s, accept) == Outcome(AcceptAll(NO_FIELDS, pairs, accept), end + 1)
  {
    ParseListOfPairs(s, head + 1, pairs, PrintPairs(pairs), end, NO_FIELDS, accept);
    ParseStarts(s, head, accept, ParseList(s, head + 1, NO_FIELDS, accept));
  }

  lemma PrintedLies(s: string, pairs: seq<Pair>, rest: string)
    requires Printable(pairs) && s == Print(pairs) + rest
    ensures Lies(s, 1, PrintPairs(pairs), |Print(pairs)| - 1) && s[0] == '[' && SkipBlanks(s, 0) == 0
  {
    var t := PrintRest(PrintPairs(pairs));
    PrintStands(s, t, rest);
    PairsStart(pairs);
    PrintLies(s, 1, PrintPairs(pairs), t);
  }

  /** The parser inverts the printer: whatever follows the closing bracket, parse hands
      parse_token exactly the printed pairs, in order. */
  lemma ParsePrint(pairs: seq<Pair>, rest: string, accept: TokenParser)
    requires RejectsEmptyName(accept) && Printable(pairs)
    ensures Parse(Print(pairs) + rest, accept) == Outcome(AcceptAll(NO_FIELDS, pairs, accept), |Print(pairs)|)
  {
    var s := Print(pairs) + rest;
    PrintedLies(s, pairs, rest);
    ParseLies(s, 0, pairs, |Print(pairs)| - 1, accept);
  }

  lemma AtPrefix(t: string, rest: string)
    ensures At(t + rest, 0, t)
  {
  }

  // ---------- By the names of the documentation ----------

  /** The name of a token. */
  function TokenName(t: Token): string
    requires !t.Invalid?
  {
    match t
    case All => "all"
    case AppId => "app_id"
    case ConId => "con_id"
    case ConMark => "con_mark"
    case Floating => "floating"
    case Shell => "shell"
    case Tiling => "tiling"
    case Title => "title"
    case Urgent => "urgent"
    case Workspace => "workspace"
    case Pid => "pid"
  }

  /** These names are read, and nothing else. */
  lemma TokenNamesAreRead(name: string, t: Token)
    requires !t.Invalid?
    ensures TokenFromName(name) == t <==> name == TokenName(t)
  {
  }

  /** All fields but those of one token are the same. */
  predicate OnlyField(f: Fields, g: Fields, t: Token) {
    && (t.Title? || g.title == f.title) && (t.Shell? || g.shell == f.shell)
    && (t.AppId? || g.appId == f.appId) && (t.ConMark? || g.conMark == f.conMark)
    && (t.ConId? || g.conId == f.conId) && (t.All? || g.all == f.all)
    && (t.Floating? || g.floating == f.floating) && (t.Tiling? || g.tiling == f.tiling)
    && (t.Urgent? || g.urgent == f.urgent) && (t.Workspace? || g.workspace == f.workspace)
    && (t.Pid? || g.pid == f.pid)
  }

  /** A pair changes at most the field that its name says. */
  lemma OnlyTheNamedFieldChanges(f: Fields, t: Token, value: Option<string>, env: Env)
    requires !t.Invalid?
    ensures var r := Accept(f, TokenName(t), value, env);
            r.Accepted? ==> OnlyField(f, r.fields, t)
  {
    TokenNamesAreRead(TokenName(t), t);
  }

  /** A value as a pattern. */
  predicate PatternSays(p: Option<Pattern>, value: string) {
    p == Some(if value == "__focused__" then Focused else Regex(value))
  }

  /** The field of a token says what the value of its pair says. */
  predicate FieldSays(g: Fields, t: Token, value: Option<string>, env: Env)
    requires !t.Invalid? && (value.None? ==> NeedsNoValue(t))
  {
    match t
    case All => g.all
    case Floating => g.floating
    case Tiling => g.tiling
    case Title => PatternSays(g.title, value.value)
    case Shell => PatternSays(g.shell, value.value)
    case AppId => PatternSays(g.appId, value.value)
    case ConMark => PatternSays(g.conMark, value.value)
    case Workspace => PatternSays(g.workspace, value.value)
    case Urgent =>
      if value.value == "oldest" || value.value == "first" then g.urgent == Oldest
      else g.urgent == Latest
    case ConId =>
      if value.value == "__focused__" then g.conId == env.focusedId
      else 0 <= g.conId < 0x1_0000_0000 && (g.conId - Strtoul(value.value).0) % 0x1_0000_0000 == 0
    case Pid => FitsInt32(g.pid) && (g.pid - Strtoul(value.value).0) % 0x1_0000_0000 == 0
  }

  lemma NumbersWrap(n: nat)
    ensures var m := n % 0x1_0000_0000; 0 <= m < 0x1_0000_0000 && (m - n) % 0x1_0000_0000 == 0
  {
  }

  lemma FieldIsSet(f: Fields, t: Token, value: Option<string>, env: Env)
    requires !t.Invalid? && (value.None? ==> NeedsNoValue(t))
    ensures var r := AcceptToken(f, t, value, env);
            r.Accepted? ==> FieldSays(r.fields, t, value, env)
  {
    if value.Some? {
      NumbersWrap(Strtoul(value.value).0);
      ToPidWraps(Strtoul(value.value).0);
    }
  }

  /** A pair that is accepted has set the field of its name to what its value says. */
  lemma TheNamedFieldIsSet(f: Fields, t: Token, value: Option<string>, env: Env)
    requires !t.Invalid? && Accept(f, TokenName(t), value, env).Accepted?
    ensures value.None? ==> NeedsNoValue(t)
    ensures FieldSays(Accept(f, TokenName(t), value, env).fields, t, value, env)
  {
    TokenNamesAreRead(TokenName(t), t);
    FieldIsSet(f, t, value, env);
  }

  lemma TokenAcceptedIff(f: Fields, t: Token, value: Option<string>, env: Env)
    requires !t.Invalid?
    ensures (value.Some? || NeedsNoValue(t)) && AcceptToken(f, t, value, env).Accepted? <==> GoodValue(t, value, env)
  {
  }

  /** A pair is accepted exactly if its name is one of them and its value, which only three
      of them can do without, is of the right kind. */
  lemma AcceptedIff(f: Fields, name: string, value: Option<string>, env: Env)
    ensures Accept(f, name, value, env).Accepted? <==>
            exists t: Token :: !t.Invalid? && name == TokenName(t) && GoodValue(t, value, env)
  {
    var t := TokenFromName(name);
    forall u: Token | !u.Invalid? ensures t == u <==> name == TokenName(u) {
      TokenNamesAreRead(name, u);
    }
    if !t.Invalid? { TokenAcceptedIff(f, t, value, env); }
  }

  predicate GoodValue(t: Token, value: Option<string>, env: Env)
    requires !t.Invalid?
  {
    match t
    case All => true
    case Floating => true
    case Tiling => true
    case Urgent =>
      value.Some? && value.value in {"latest", "newest", "last", "recent", "oldest", "first"}
    case ConId => value.Some? && (value.value == "__focused__" || Strtoul(value.value).1 == "")
    case Pid => value.Some? && Strtoul(value.value).1 == ""
    case _ => value.Some? && (value.value == "__focused__" || env.compiles(value.value))
  }

  // ---------- Printing the fields of a criteria object ----------

  function PatternText(p: Pattern): string {
    match p
    case Focused => "__focused__"
    case Regex(source) => source
  }

  /** A pattern that was made from a text that can be printed. */
  predicate FromText(p: Option<Pattern>, env: Env) {
    p.Some? && p.value.Regex? ==>
      env.compiles(p.value.source) && p.value.source != "__focused__" && !EndsInBackslash(p.value.source)
  }

  /** Fields that some text describes. */
  predicate Describable(f: Fields, env: Env) {
    && FromText(f.title, env) && FromText(f.shell, env) && FromText(f.appId, env)
    && FromText(f.conMark, env) && FromText(f.workspace, env)
    && 0 <= f.conId < 0x1_0000_0000 && 0 <= f.pid < 0x8000_0000
  }

  function PatternPair(t: Token, p: Option<Pattern>): seq<Pair>
    requires !t.Invalid?
  {
    if p.Some? then [Quoted(TokenName(t), PatternText(p.value))] else []
  }

  /** The pair for the field of a token, if the field is set. */
  function FieldPair(f: Fields, t: Token): seq<Pair>
    requires !t.Invalid? && f.conId >= 0 && f.pid >= 0
  {
    match t
    case Title => PatternPair(t, f.title)
    case Shell => PatternPair(t, f.shell)
    case AppId => PatternPair(t, f.appId)
    case ConMark => PatternPair(t, f.conMark)
    case Workspace => PatternPair(t, f.workspace)
    case ConId => if f.conId != 0 then [Quoted("con_id", ToString(f.conId))] else []
    case Pid => if f.pid != 0 then [Quoted("pid", ToString(f.pid))] else []
    case All => if f.all then [Alone("all")] else []
    case Floating => if f.floating then [Alone("floating")] else []
    case Tiling => if f.tiling then [Alone("tiling")] else []
    case Urgent =>
      match f.urgent
      case Unset => []
      case Latest => [Quoted("urgent", "latest")]
      case Oldest => [Quoted("urgent", "oldest")]
  }

  /** Takes over the field of a token. */
  function TakeField(g: Fields, f: Fields, t: Token): Fields {
    match t
    case Title => g.(title := f.title)
    case Shell => g.(shell := f.shell)
    case AppId => g.(appId := f.appId)
    case ConMark => g.(conMark := f.conMark)
    case Workspace => g.(workspace := f.workspace)
    case ConId => g.(conId := f.conId)
    case Pid => g.(pid := f.pid)
    case All => g.(all := f.all)
    case Floating => g.(floating := f.floating)
    case Tiling => g.(tiling := f.tiling)
    case Urgent => g.(urgent := f.urgent)
    case Invalid => g
  }

  const TOKENS: seq<Token> :=
    [Title, Shell, AppId, ConMark, Workspace, ConId, Pid, All, Floating, Tiling, Urgent]

  /** The pairs for the fields of some tokens. */
  function FieldPairs(f: Fields, tokens: seq<Token>): seq<Pair>
    requires f.conId >= 0 && f.pid >= 0 && Invalid !in tokens
  {
    if tokens == [] then [] else FieldPair(f, tokens[0]) + FieldPairs(f, tokens[1..])
  }

  function TakeFields(g: Fields, f: Fields, tokens: seq<Token>): Fields
    decreases tokens
  {
    if tokens == [] then g else TakeFields(TakeField(g, f, tokens[0]), f, tokens[1..])
  }

  /** The field of a token is still unset. */
  predicate NotSet(g: Fields, t: Token) {
    TakeField(g, NO_FIELDS, t) == g
  }

  lemma NumbersAreRead(n: nat)
    requires n < 0x1_0000_0000
    ensures Strtoul(ToString(n)) == (n, "") && ToString(n) != FOCUSED && !EndsInBackslash(ToString(n))
    ensures n < 0x8000_0000 ==> ToPid(n) == n
  {
    StrtoulOfString(n);
    FocusedIsNoNumber(ToString(n));
  }

  lemma FocusedIsNoNumber(s: string)
    requires s != "" && Digits(s)
    ensures s != FOCUSED && !EndsInBackslash(s)
  {
    assert IsDigit(s[0]) && IsDigit(s[|s| - 1]) && FOCUSED[0] == '_';
  }

  /** Reading the pair of one field sets this field to what it was. */
  lemma FieldIsRead(g: Fields, f: Fields, t: Token, env: Env)
    requires !t.Invalid? && Describable(f, env) && NotSet(g, t)
    ensures AcceptAll(g, FieldPair(f, t), TokenParserOf(env)) == Accepted(TakeField(g, f, t))
  {
    TokenNamesAreRead(TokenName(t), t);
    NumbersAreRead(f.conId);
    NumbersAreRead(f.pid);
    var pairs := FieldPair(f, t);
    if pairs != [] {
      assert pairs[1..] == [];
      OneFieldIsRead(g, f, t, env);
    }
  }

  predicate OneFieldRead(g: Fields, f: Fields, t: Token, pair: Pair, env: Env)
    requires !t.Invalid?
  {
    && pair.name == TokenName(t) && (ValueOf(pair).None? ==> NeedsNoValue(t))
    && AcceptToken(g, t, ValueOf(pair), env) == Accepted(TakeField(g, f, t))
  }

  lemma PatternIsRead(g: Fields, f: Fields, t: Token, env: Env)
    requires t in {Title, Shell, AppId, ConMark, Workspace} && Describable(f, env) && FieldPair(f, t) != []
    ensures OneFieldRead(g, f, t, FieldPair(f, t)[0], env)
  {
  }

  lemma NumberIsRead(g: Fields, f: Fields, t: Token, env: Env)
    requires t in {ConId, Pid} && Describable(f, env) && FieldPair(f, t) != []
    ensures OneFieldRead(g, f, t, FieldPair(f, t)[0], env)
  {
    NumbersAreRead(f.conId);
    NumbersAreRead(f.pid);
  }

  lemma FlagIsRead(g: Fields, f: Fields, t: Token, env: Env)
    requires t in {All, Floating, Tiling, Urgent} && Describable(f, env) && FieldPair(f, t) != []
    ensures OneFieldRead(g, f, t, FieldPair(f, t)[0], env)
  {
  }

  lemma OneFieldIsRead(g: Fields, f: Fields, t: Token, env: Env)
    requires !t.Invalid? && Describable(f, env) && FieldPair(f, t) != []
    ensures OneFieldRead(g, f, t, FieldPair(f, t)[0], env)
  {
    if t in {ConId, Pid} {
      NumberIsRead(g, f, t, env);
    } else if t in {All, Floating, Tiling, Urgent} {
      FlagIsRead(g, f, t, env);
    } else {
      PatternIsRead(g, f, t, env);
    }
  }

  lemma {:induction false} AcceptAllConcat(f: Fields, a: seq<Pair>, b: seq<Pair>, accept: TokenParser)
    ensures AcceptAll(f, a + b, accept) ==
            match AcceptAll(f, a, accept)
            case Rejected(e) => Rejected(e)
            case Accepted(g) => AcceptAll(g, b, accept)
    decreases a
  {
    if a == [] {
      assert [] + b == b;
    } else {
      assert (a + b)[1..] == a[1..] + b;
      match accept(f, a[0].name, ValueOf(a[0]))
      case Rejected(_) =>
      case Accepted(g) => AcceptAllConcat(g, a[1..], b, accept);
    }
  }

  lemma NamesAreNames(t: Token)
    requires !t.Invalid?
    ensures IsName(TokenName(t))
  {
  }

  lemma FieldIsWritable(f: Fields, t: Token, env: Env)
    requires !t.Invalid? && Describable(f, env)
    ensures |FieldPair(f, t)| <= 1 && (FieldPair(f, t) != [] ==> Writable(FieldPair(f, t)[0]))
  {
    NamesAreNames(t);
    NumbersAreRead(f.conId);
    NumbersAreRead(f.pid);
    if FieldPair(f, t) != [] { OneFieldIsRead(NO_FIELDS, f, t, env); }
  }

  lemma {:induction false} FieldsAreWritable(f: Fields, tokens: seq<Token>, env: Env)
    requires Describable(f, env) && Invalid !in tokens
    ensures Printable(FieldPairs(f, tokens))
  {
    if tokens != [] {
      FieldIsWritable(f, tokens[0], env);
      FieldsAreWritable(f, tokens[1..], env);
    }
  }

  /** The fields of some distinct tokens are still unset. */
  predicate StillToSet(g: Fields, tokens: seq<Token>) {
    && (forall i :: 0 <= i < |tokens| ==> NotSet(g, tokens[i]))
    && (forall i, j :: 0 <= i < j < |tokens| ==> tokens[i] != tokens[j])
  }

  lemma OthersStayUnset(g: Fields, f: Fields, t: Token, u: Token)
    requires t != u && NotSet(g, u)
    ensures NotSet(TakeField(g, f, t), u)
  {
  }

  lemma {:induction false} FieldsAreRead(g: Fields, f: Fields, tokens: seq<Token>, env: Env)
    requires Describable(f, env) && Invalid !in tokens && StillToSet(g, tokens)
    ensures AcceptAll(g, FieldPairs(f, tokens), TokenParserOf(env)) == Accepted(TakeFields(g, f, tokens))
    decreases |tokens|
  {
    if tokens != [] {
      var t, rest := tokens[0], tokens[1..];
      FieldIsRead(g, f, t, env);
      AcceptAllConcat(g, FieldPair(f, t), FieldPairs(f, rest), TokenParserOf(env));
      forall i | 0 <= i < |rest| ensures NotSet(TakeField(g, f, t), rest[i]) {
        OthersStayUnset(g, f, t, rest[i]);
      }
      FieldsAreRead(TakeField(g, f, t), f, rest, env);
    }
  }

  /** The field of a token has been taken over. */
  predicate Taken(g: Fields, f: Fields, t: Token) {
    TakeField(g, f, t) == g
  }

  lemma TakenStays(g: Fields, f: Fields, t: Token, u: Token)
    requires Taken(g, f, u) || t == u
    ensures Taken(TakeField(g, f, t), f, u)
  {
  }

  lemma {:induction false} AllTaken(g: Fields, f: Fields, tokens: seq<Token>, u: Token)
    requires Taken(g, f, u) || u in tokens
    ensures Taken(TakeFields(g, f, tokens), f, u)
    decreases |tokens|
  {
    if tokens != [] {
      if Taken(g, f, u) || u == tokens[0] { TakenStays(g, f, tokens[0], u); }
      AllTaken(TakeField(g, f, tokens[0]), f, tokens[1..], u);
    }
  }

  lemma AllFieldsTaken(f: Fields)
    ensures TakeFields(NO_FIELDS, f, TOKENS) == f
  {
    forall u: Token | !u.Invalid? ensures Taken(TakeFields(NO_FIELDS, f, TOKENS), f, u) {
      assert u in TOKENS;
      AllTaken(NO_FIELDS, f, TOKENS, u);
    }
    var g := TakeFields(NO_FIELDS, f, TOKENS);
    assert Taken(g, f, Title) && Taken(g, f, Shell) && Taken(g, f, AppId) && Taken(g, f, ConMark);
    assert Taken(g, f, Workspace) && Taken(g, f, ConId) && Taken(g, f, Pid) && Taken(g, f, All);
    assert Taken(g, f, Floating) && Taken(g, f, Tiling) && Taken(g, f, Urgent);
  }

  /** is_empty: no field is set. */
  lemma EmptyIff(f: Fields)
    ensures IsEmpty(f) <==> f == NO_FIELDS
  {
  }

  /** Criteria written from the fields of an object, each under its name in the
      documentation, are parsed into an object with exactly these fields. */
  lemma ParseDescribes(f: Fields, rest: string, env: Env)
    requires Describable(f, env) && f != NO_FIELDS
    ensures RejectsEmptyName(TokenParserOf(env))
    ensures var text := Print(FieldPairs(f, TOKENS));
            Parse(text + rest, TokenParserOf(env)) == Parsed(f, |text|)
  {
    ParseTokenRejectsEmptyName(env);
    TokensAreUnset();
    AllFieldsTaken(f);
    ParseTokens(f, TOKENS, rest, env, TokenParserOf(env));
  }

  lemma TokensAreUnset()
    ensures StillToSet(NO_FIELDS, TOKENS) && Invalid !in TOKENS
  {
  }

  lemma ParseTokens(f: Fields, tokens: seq<Token>, rest: string, env: Env, accept: TokenParser)
    requires Describable(f, env) && f != NO_FIELDS && accept == TokenParserOf(env) && RejectsEmptyName(accept)
    requires Invalid !in tokens && StillToSet(NO_FIELDS, tokens) && TakeFields(NO_FIELDS, f, tokens) == f
    ensures var text := Print(FieldPairs(f, tokens));
            Parse(text + rest, accept) == Parsed(f, |text|)
  {
    var pairs := FieldPairs(f, tokens);
    FieldsAreWritable(f, tokens, env);
    FieldsAreRead(NO_FIELDS, f, tokens, env);
    ParseAccepted(pairs, Print(pairs), rest, accept, f);
  }

  lemma ParseAccepted(pairs: seq<Pair>, text: string, rest: string, accept: TokenParser, f: Fields)
    requires RejectsEmptyName(accept) && Printable(pairs)
    requires AcceptAll(NO_FIELDS, pairs, accept) == Accepted(f) && f != NO_FIELDS && text == Print(pairs)
    ensures Parse(text + rest, accept) == Parsed(f, |text|)
  {
    ParsePrint(pairs, rest, accept);
    EmptyIff(f);
  }
}
