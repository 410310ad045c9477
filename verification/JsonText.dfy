/** The plain meaning of "the brace that closes this one", without a cache and without a limit.

  Everything the scanner remembers is compared with `Match`: one fresh pass that starts outside a
  string and counts open braces. */
module JsonText {

  const NOT_FOUND: int := -1

  /** Python's `str.isspace` for one character. */
  predicate IsSpace(c: char) {
    || '\t' <= c <= '\r' || '\U{1C}' <= c <= ' ' || c == '\U{85}' || c == '\U{A0}'
    || c == '\U{1680}' || '\U{2000}' <= c <= '\U{200A}' || c == '\U{2028}' || c == '\U{2029}'
    || c == '\U{202F}' || c == '\U{205F}' || c == '\U{3000}'
  }

  /** The pair (in a string, after a backslash) once `c` is read inside a string. */
  function AdvanceStringState(c: char, escape: bool): (bool, bool) {
    if escape then (true, false)
    else if c == '\\' then (true, true)
    else (c != '"', false)
  }

  /** The first index at or after `k` where a pass with `depth` braces open closes the last one. */
  function MatchFrom(text: string, k: nat, inString: bool, escape: bool, depth: nat): (end: int)
    requires k <= |text|
    ensures end == NOT_FOUND || (k <= end < |text| && text[end] == '}')
    decreases |text| - k
  {
    if k == |text| then NOT_FOUND
    else if inString then
      var (inString', escape') := AdvanceStringState(text[k], escape);
      MatchFrom(text, k + 1, inString', escape', depth)
    else if text[k] == '"' then MatchFrom(text, k + 1, true, escape, depth)
    else if text[k] == '{' then MatchFrom(text, k + 1, false, escape, depth + 1)
    else if text[k] == '}' then
      if depth <= 1 then k else MatchFrom(text, k + 1, false, escape, depth - 1)
    else MatchFrom(text, k + 1, false, escape, depth)
  }

  predicate IsOpenBrace(text: string, p: nat) {
    p < |text| && text[p] == '{'
  }

  /** Where the brace at `p` closes, by a fresh pass from `p`. */
  function Match(text: string, p: nat): (end: int)
    requires IsOpenBrace(text, p)
    ensures end == NOT_FOUND || (p < end < |text| && text[end] == '}')
  {
    MatchFrom(text, p, false, false, 0)
  }

  /** The first index at or after `j` that holds no white space, or the end of the text. */
  function SkipSpaces(text: string, j: nat): (end: nat)
    requires j <= |text|
    ensures j <= end <= |text|
    ensures forall x | j <= x < end :: IsSpace(text[x])
    ensures end < |text| ==> !IsSpace(text[end])
    decreases |text| - j
  {
    if j < |text| && IsSpace(text[j]) then SkipSpaces(text, j + 1) else j
  }

  /** The next character that is not white space can start a member name or end the object. */
  predicate OpensAnObject(text: string, p: nat)
    requires IsOpenBrace(text, p)
  {
    var j := SkipSpaces(text, p + 1);
    j < |text| && text[j] in {'"', '}'}
  }

  /** What a search from `p` returns when nothing is remembered and no limit applies. */
  function PlainEnd(text: string, p: nat): (end: int)
    requires IsOpenBrace(text, p)
    ensures end == NOT_FOUND || p < end < |text|
  {
    if OpensAnObject(text, p) then Match(text, p) else NOT_FOUND
  }

  /** Python's `text.find("{", i)`. */
  function NextBrace(text: string, i: nat): (start: int)
    ensures start == NOT_FOUND || (i <= start < |text| && text[start] == '{')
    ensures start == NOT_FOUND ==> forall x | i <= x < |text| :: text[x] != '{'
    ensures start != NOT_FOUND ==> forall x | i <= x < start :: text[x] != '{'
    decreases |text| - i
  {
    if i >= |text| then NOT_FOUND
    else if text[i] == '{' then i
    else NextBrace(text, i + 1)
  }
}
