/** Numbers as text: std::to_string, and the conversions of the C library, strtol and
    strtoul with base 10. */
module Numbers {
  import opened Helpers

  predicate Digits(s: string) {
    forall i :: 0 <= i < |s| ==> IsDigit(s[i])
  }

  /** std::to_string of an unsigned number. */
  function ToString(n: nat): (s: string)
    ensures s != [] && Digits(s)
  {
    var last := [('0' as int + n % 10) as char];
    if n < 10 then last else ToString(n / 10) + last
  }

  /** A number with its sign. */
  function Show(n: int): (s: string)
    ensures s != []
  {
    if n < 0 then "-" + ToString(-n) else ToString(n)
  }

  function SkipSpace(s: string): string {
    if s != "" && IsSpace(s[0]) then SkipSpace(s[1..]) else s
  }

  /** The digits in front of a text, added to a number, and the rest. */
  function ReadDigits(n: nat, s: string): (nat, string)
    decreases |s|
  {
    if s != "" && IsDigit(s[0]) then ReadDigits(n * 10 + (s[0] as int - '0' as int), s[1..]) else (n, s)
  }

  /** White space, a sign, and digits: the number without a limit and the rest. Without any
      digit the rest is the whole text. */
  function ReadNumber(s: string): (int, string) {
    var t := SkipSpace(s);
    var signed := t != "" && (t[0] == '-' || t[0] == '+');
    var u := if signed then t[1..] else t;
    if u == "" || !IsDigit(u[0]) then (0, s)
    else
      var (n, rest) := ReadDigits(0, u);
      (if signed && t[0] == '-' then 0 - n else n, rest)
  }

  const LONG_MAX := 0x7FFF_FFFF_FFFF_FFFF
  const ULONG_MAX := 0xFFFF_FFFF_FFFF_FFFF

  function ClampLong(n: int): int {
    if n > LONG_MAX then LONG_MAX else if n < -LONG_MAX - 1 then -LONG_MAX - 1 else n
  }

  /** strtol. */
  function Strtol(s: string): (int, string) {
    var (n, rest) := ReadNumber(s);
    (ClampLong(n), rest)
  }

  /** strtoul: a negative number is taken modulo 2^64, one that is too large either way is
      the largest. */
  function Strtoul(s: string): (nat, string) {
    var (n, rest) := ReadNumber(s);
    (if n > ULONG_MAX || n < -ULONG_MAX then ULONG_MAX else n % (ULONG_MAX + 1), rest)
  }

  /** The conversion to int32_t. */
  function Int32(n: int): int {
    (n + 0x8000_0000) % 0x1_0000_0000 - 0x8000_0000
  }

  predicate FitsInt32(n: int) {
    -0x8000_0000 <= n < 0x8000_0000
  }

  // ---------- Reading undoes writing ----------

  lemma {:induction false} ReadDigitsGoesOn(n: nat, a: string, b: string)
    requires Digits(a)
    ensures ReadDigits(n, a + b) == ReadDigits(ReadDigits(n, a).0, b)
    ensures ReadDigits(n, a).1 == ""
    decreases |a|
  {
    if a == "" {
      assert a + b == b;
    } else {
      assert IsDigit(a[0]) && (a + b)[1..] == a[1..] + b;
      ReadDigitsGoesOn(n * 10 + (a[0] as int - '0' as int), a[1..], b);
    }
  }

  lemma {:induction false} ReadDigitsOfString(n: nat)
    ensures ReadDigits(0, ToString(n)) == (n, "")
  {
    var last := [('0' as int + n % 10) as char];
    assert last[1..] == "";
    ReadDigitsGoesOn(0, ToString(n), "");
    if n >= 10 {
      ReadDigitsOfString(n / 10);
      ReadDigitsGoesOn(0, ToString(n / 10), last);
    }
  }

  /** What follows a number does not go on with it. */
  predicate Stops(rest: string) {
    rest == "" || !IsDigit(rest[0])
  }

  /** A written number is read back, up to where it ends. */
  lemma ReadNumberOfShow(n: int, rest: string)
    requires Stops(rest)
    ensures ReadNumber(Show(n) + rest) == (n, rest)
  {
    var digits := ToString(if n < 0 then -n else n);
    var s := Show(n) + rest;
    assert IsDigit(digits[0]);
    ReadDigitsOfString(if n < 0 then -n else n);
    ReadDigitsGoesOn(0, digits, rest);
    if n < 0 {
      assert s[1..] == digits + rest;
    } else {
      assert s == digits + rest;
    }
  }

  lemma {:induction false} SkipSpaceBehind(space: string, s: string)
    requires AllSpace(space) && s != "" && !IsSpace(s[0])
    ensures SkipSpace(space + s) == s
    decreases |space|
  {
    if space == "" {
      assert space + s == s;
    } else {
      assert (space + s)[1..] == space[1..] + s;
      SkipSpaceBehind(space[1..], s);
    }
  }

  /** White space, and a plus sign, in front of a number do not matter. */
  lemma ReadNumberBehindSpace(space: string, plus: bool, n: nat, rest: string)
    requires AllSpace(space) && Stops(rest)
    ensures ReadNumber(space + ((if plus then "+" else "") + (Show(n) + rest))) == (n, rest)
  {
    var digits := Show(n) + rest;
    var s := (if plus then "+" else "") + digits;
    assert IsDigit(digits[0]) by { assert digits[0] == ToString(n)[0]; }
    SkipSpaceBehind(space, s);
    ReadNumberOfShow(n, rest);
    SkipSpaceBehind("", digits);
    assert "" + digits == digits;
    if plus { assert s[1..] == digits; } else { assert s == digits; }
  }

  /** strtol gives the nearest long. */
  lemma StrtolIsNearest(n: int, rest: string)
    requires Stops(rest)
    ensures var r := Strtol(Show(n) + rest);
            && r.1 == rest && -LONG_MAX - 1 <= r.0 <= LONG_MAX
            && (r.0 < n ==> r.0 == LONG_MAX) && (r.0 > n ==> r.0 == -LONG_MAX - 1)
  {
    ReadNumberOfShow(n, rest);
  }

  /** strtoul gives the same number modulo 2^64, if it has at most 64 bits, and else the
      largest one. */
  lemma StrtoulIsModular(n: int, rest: string)
    requires Stops(rest)
    ensures var r := Strtoul(Show(n) + rest);
            && r.1 == rest && r.0 <= ULONG_MAX
            && (if -ULONG_MAX <= n <= ULONG_MAX then r.0 == n || r.0 == n + ULONG_MAX + 1 else r.0 == ULONG_MAX)
  {
    ReadNumberOfShow(n, rest);
    if -ULONG_MAX <= n <= ULONG_MAX { Modular(n); }
  }

  lemma Modular(n: int)
    requires -ULONG_MAX <= n <= ULONG_MAX
    ensures n % (ULONG_MAX + 1) == if n < 0 then n + ULONG_MAX + 1 else n
  {
  }

  /** The conversion to 32 bits keeps a number modulo 2^32. */
  lemma Int32Wraps(n: int)
    ensures FitsInt32(Int32(n)) && (Int32(n) - n) % 0x1_0000_0000 == 0
  {
  }

  lemma Int32Keeps(n: int)
    requires FitsInt32(n)
    ensures ClampLong(n) == n && Int32(n) == n
  {
  }

  /** strtol, cast to 32 bits, gives back every 32-bit number that was written. */
  lemma StrtolOfShow(n: int, rest: string)
    requires FitsInt32(n) && Stops(rest)
    ensures Int32(Strtol(Show(n) + rest).0) == n && Strtol(Show(n) + rest).1 == rest
  {
    ReadNumberOfShow(n, rest);
    Int32Keeps(n);
  }

  lemma StrtoulIs(s: string, n: nat)
    requires n <= ULONG_MAX && ReadNumber(s).0 == n && ReadNumber(s).1 == ""
    ensures Strtoul(s) == (n, "")
  {
  }

  lemma ReadNumberOfString(n: nat)
    ensures ReadNumber(ToString(n)).0 == n && ReadNumber(ToString(n)).1 == ""
  {
    var s := ToString(n);
    ReadNumberOfShow(n, "");
    assert s == Show(n) + "";
  }

  lemma StrtoulOfString(n: nat)
    requires n <= ULONG_MAX
    ensures Strtoul(ToString(n)) == (n, "")
  {
    ReadNumberOfString(n);
    StrtoulIs(ToString(n), n);
  }
}
