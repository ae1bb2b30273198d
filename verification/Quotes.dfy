/** What it means for a position of a text to be quoted or escaped, said without any of the
    automata that decide it. */
module Quotes {

  /** How many backslashes a text ends with. */
  function Backslashes(s: string): nat {
    if s != "" && s[|s| - 1] == '\\' then Backslashes(s[..|s| - 1]) + 1 else 0
  }

  /** What follows the text is escaped: an odd number of backslashes is in front of it. */
  predicate Escaping(s: string) {
    Backslashes(s) % 2 == 1
  }

  datatype Quote = Outside | Double | Single

  function Toggle(q: Quote, kind: Quote): Quote {
    if q == kind then Outside else kind
  }

  /** The quote that is open behind a text: a quote character opens and closes its own kind,
      unless it is escaped or inside quotes of the other kind. */
  function OpenQuote(s: string): Quote {
    if s == "" then Outside
    else
      var before, c := s[..|s| - 1], s[|s| - 1];
      var q := OpenQuote(before);
      if c == '"' && q != Single && !Escaping(before) then Toggle(q, Double)
      else if c == '\'' && q != Double && !Escaping(before) then Toggle(q, Single)
      else q
  }

  /** Whether a bracket is open behind a text: brackets in quotes and escaped ones do not
      count, and brackets do not nest. */
  predicate OpenBracket(s: string) {
    if s == "" then false
    else
      var before, c := s[..|s| - 1], s[|s| - 1];
      if (c == '[' || c == ']') && OpenQuote(before) == Outside && !Escaping(before) then c == '['
      else OpenBracket(before)
  }

  /** A position where nothing is open: no quote, no bracket, no escape. */
  predicate InTheOpen(s: string) {
    OpenQuote(s) == Outside && !OpenBracket(s) && !Escaping(s)
  }
}
