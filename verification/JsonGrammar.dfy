/** JSON by RFC 8259 as concrete syntax trees, and the theorem that the brace scan finds the end of
  every object the grammar allows.

  A tree keeps each lexical choice: white space (section 2), the escapes of a string (section 7) and
  the parts of a number (section 6). `Render` writes a tree back as the text it stands for. */
module JsonGrammar {
  import opened JsonText

  // ----- Syntax

  datatype StringChar =
    | Unescaped(c: char)
    | Escaped(c: char)
    | CodeUnit(hex: string)

  datatype Number = Number(minus: bool, digits: string, fraction: string, exponent: string)

  datatype Value =
    | Literal(name: string)
    | Numeric(number: Number)
    | Text(chars: seq<StringChar>)
    | EmptyArray(blank: string)
    | Array(elements: Elements)
    | Object(members: Members)

  /** An element or a member carries the white space around its own tokens. */
  datatype Elements =
    | LastElement(before: string, value: Value, after: string)
    | Element(before: string, value: Value, after: string, rest: Elements)

  datatype Members =
    | NoMembers(blank: string)
    | Members(first: Member, rest: OtherMembers)

  datatype OtherMembers = End | Then(next: Member, rest: OtherMembers)

  datatype Member = Member(before: string, name: seq<StringChar>, beforeColon: string,
                           afterColon: string, value: Value, after: string)

  // ----- Well-formedness

  predicate IsBlank(s: string) {
    forall i | 0 <= i < |s| :: s[i] in {' ', '\t', '\n', '\r'}
  }

  predicate IsDigits(s: string) {
    s != "" && forall i | 0 <= i < |s| :: '0' <= s[i] <= '9'
  }

  predicate IsHex(c: char) {
    '0' <= c <= '9' || 'a' <= c <= 'f' || 'A' <= c <= 'F'
  }

  predicate IsStringChar(c: StringChar) {
    match c
    case Unescaped(c) => ' ' <= c && c != '"' && c != '\\'
    case Escaped(c) => c in {'"', '\\', '/', 'b', 'f', 'n', 'r', 't'}
    case CodeUnit(hex) => |hex| == 4 && forall i | 0 <= i < 4 :: IsHex(hex[i])
  }

  predicate IsString(chars: seq<StringChar>) {
    forall i | 0 <= i < |chars| :: IsStringChar(chars[i])
  }

  predicate IsNumber(n: Number) {
    && IsDigits(n.digits) && (n.digits[0] == '0' ==> |n.digits| == 1)
    && (n.fraction != "" ==> n.fraction[0] == '.' && IsDigits(n.fraction[1..]))
    && (n.exponent != "" ==>
          && n.exponent[0] in {'e', 'E'}
          && |n.exponent| >= 2
          && (IsDigits(n.exponent[1..]) || (n.exponent[1] in {'+', '-'} && IsDigits(n.exponent[2..]))))
  }

  predicate IsValue(v: Value) {
    match v
    case Literal(name) => name in {"true", "false", "null"}
    case Numeric(number) => IsNumber(number)
    case Text(chars) => IsString(chars)
    case EmptyArray(blank) => IsBlank(blank)
    case Array(elements) => IsElements(elements)
    case Object(members) => IsMembers(members)
  }

  predicate IsElements(e: Elements) {
    && IsBlank(e.before) && IsValue(e.value) && IsBlank(e.after)
    && (e.Element? ==> IsElements(e.rest))
  }

  predicate IsMembers(m: Members) {
    match m
    case NoMembers(blank) => IsBlank(blank)
    case Members(first, rest) => IsMember(first) && IsOtherMembers(rest)
  }

  predicate IsOtherMembers(o: OtherMembers) {
    o.Then? ==> IsMember(o.next) && IsOtherMembers(o.rest)
  }

  predicate IsMember(m: Member) {
    && IsBlank(m.before) && IsString(m.name) && IsBlank(m.beforeColon)
    && IsBlank(m.afterColon) && IsValue(m.value) && IsBlank(m.after)
  }

  // ----- Rendering

  function RenderChar(c: StringChar): string {
    match c
    case Unescaped(c) => [c]
    case Escaped(c) => ['\\', c]
    case CodeUnit(hex) => "\\u" + hex
  }

  function RenderChars(chars: seq<StringChar>): string {
    if chars == [] then "" else RenderChar(chars[0]) + RenderChars(chars[1..])
  }

  function RenderString(chars: seq<StringChar>): string {
    "\"" + (RenderChars(chars) + "\"")
  }

  function RenderNumber(n: Number): string {
    (if n.minus then "-" else "") + n.digits + n.fraction + n.exponent
  }

  function Render(v: Value): string {
    match v
    case Literal(name) => name
    case Numeric(number) => RenderNumber(number)
    case Text(chars) => RenderString(chars)
    case EmptyArray(blank) => "[" + blank + "]"
    case Array(elements) => "[" + (RenderElements(elements) + "]")
    case Object(members) => "{" + (RenderMembers(members) + "}")
  }

  function RenderElements(e: Elements): string {
    var one := e.before + (Render(e.value) + e.after);
    match e
    case LastElement(_, _, _) => one
    case Element(_, _, _, rest) => one + ("," + RenderElements(rest))
  }

  function RenderMembers(m: Members): string {
    match m
    case NoMembers(blank) => blank
    case Members(first, rest) => RenderMember(first) + RenderOtherMembers(rest)
  }

  function RenderOtherMembers(o: OtherMembers): string {
    match o
    case End => ""
    case Then(next, rest) => "," + (RenderMember(next) + RenderOtherMembers(rest))
  }

  function Colon(m: Member): string {
    m.beforeColon + ":" + m.afterColon
  }

  function RenderMember(m: Member): string {
    m.before + (RenderString(m.name) + (Colon(m) + (Render(m.value) + m.after)))
  }

  // ----- Passing over a piece of text

  ghost predicate Occupies(text: string, k: nat, s: string) {
    k + |s| <= |text| && text[k..k + |s|] == s
  }

  lemma OccupiesSplit(text: string, k: nat, a: string, b: string)
    requires Occupies(text, k, a + b)
    ensures Occupies(text, k, a) && Occupies(text, k + |a|, b)
  {
    var whole := text[k..k + |a + b|];
    assert whole[..|a|] == a && whole[|a|..] == b;
    assert text[k..k + |a|] == whole[..|a|];
    assert text[k + |a|..k + |a| + |b|] == whole[|a|..];
  }

  /** A pass with at least one brace open crosses `s` at `k` and is where it was: outside a string,
    with the same braces open. */
  ghost predicate Crosses(text: string, k: nat, s: string, depth: nat)
    requires k + |s| <= |text|
  {
    MatchFrom(text, k, false, false, depth) == MatchFrom(text, k + |s|, false, false, depth)
  }

  predicate IsPlain(s: string) {
    forall i | 0 <= i < |s| :: s[i] !in {'"', '{', '}'}
  }

  lemma {:induction false} CrossesPlain(text: string, k: nat, s: string, depth: nat)
    requires Occupies(text, k, s) && IsPlain(s)
    ensures Crosses(text, k, s, depth)
    decreases |s|
  {
    if s != "" {
      OccupiesSplit(text, k, s[..1], s[1..]);
      assert s == s[..1] + s[1..];
      assert text[k] == text[k..k + |s|][0] == s[0];
      CrossesPlain(text, k + 1, s[1..], depth);
    }
  }

  /** Two pieces crossed one after the other. */
  lemma CrossesPair(text: string, k: nat, a: string, b: string, depth: nat)
    requires Occupies(text, k, a + b)
    requires Crosses(text, k, a, depth) && Crosses(text, k + |a|, b, depth)
    ensures Crosses(text, k, a + b, depth)
  {
  }

  lemma CrossesThree(text: string, k: nat, a: string, b: string, c: string, depth: nat)
    requires Occupies(text, k, a + (b + c))
    requires Crosses(text, k, a, depth) && Crosses(text, k + |a|, b, depth) && Crosses(text, k + |a| + |b|, c, depth)
    ensures Crosses(text, k, a + (b + c), depth)
  {
  }

  /** A string piece: crossed from inside a string. */
  ghost predicate CrossesInside(text: string, k: nat, s: string, depth: nat)
    requires k + |s| <= |text|
  {
    MatchFrom(text, k, true, false, depth) == MatchFrom(text, k + |s|, true, false, depth)
  }

  lemma CharAt(text: string, k: nat, s: string, i: nat)
    requires Occupies(text, k, s) && i < |s|
    ensures text[k + i] == s[i]
  {
    assert text[k..k + |s|][i] == s[i];
  }

  lemma CrossesChar(text: string, k: nat, c: StringChar, depth: nat)
    requires Occupies(text, k, RenderChar(c)) && IsStringChar(c)
    ensures CrossesInside(text, k, RenderChar(c), depth)
  {
    var shown := RenderChar(c);
    forall i | 0 <= i < |shown| ensures text[k + i] == shown[i] { CharAt(text, k, shown, i); }
    if c.CodeUnit? {
      assert text[k] == '\\' && text[k + 1] == 'u';
      assert text[k + 2] == c.hex[0] && text[k + 3] == c.hex[1] && text[k + 4] == c.hex[2] && text[k + 5] == c.hex[3];
      assert MatchFrom(text, k, true, false, depth) == MatchFrom(text, k + 2, true, false, depth);
      assert MatchFrom(text, k + 2, true, false, depth) == MatchFrom(text, k + 4, true, false, depth);
    }
  }

  lemma CrossesInsidePair(text: string, k: nat, a: string, b: string, depth: nat)
    requires Occupies(text, k, a + b)
    requires CrossesInside(text, k, a, depth) && CrossesInside(text, k + |a|, b, depth)
    ensures CrossesInside(text, k, a + b, depth)
  {
  }

  lemma {:induction false} CrossesChars(text: string, k: nat, chars: seq<StringChar>, depth: nat)
    requires Occupies(text, k, RenderChars(chars)) && IsString(chars)
    ensures CrossesInside(text, k, RenderChars(chars), depth)
    decreases |chars|
  {
    if chars != [] {
      var one, rest := RenderChar(chars[0]), RenderChars(chars[1..]);
      assert RenderChars(chars) == one + rest;
      OccupiesSplit(text, k, one, rest);
      CrossesChar(text, k, chars[0], depth);
      CrossesChars(text, k + |one|, chars[1..], depth);
      CrossesInsidePair(text, k, one, rest, depth);
    }
  }

  lemma CrossesQuoted(text: string, k: nat, inside: string, depth: nat)
    requires Occupies(text, k, "\"" + (inside + "\""))
    requires CrossesInside(text, k + 1, inside, depth)
    ensures Crosses(text, k, "\"" + (inside + "\""), depth)
  {
    var shown := "\"" + (inside + "\"");
    CharAt(text, k, shown, 0);
    CharAt(text, k, shown, 1 + |inside|);
  }

  lemma CrossesString(text: string, k: nat, chars: seq<StringChar>, depth: nat)
    requires Occupies(text, k, RenderString(chars)) && IsString(chars)
    ensures Crosses(text, k, RenderString(chars), depth)
  {
    var inside := RenderChars(chars);
    OccupiesSplit(text, k, "\"", inside + "\"");
    OccupiesSplit(text, k + 1, inside, "\"");
    CrossesChars(text, k + 1, chars, depth);
    CrossesQuoted(text, k, inside, depth);
  }

  lemma CrossesNumber(text: string, k: nat, n: Number, depth: nat)
    requires Occupies(text, k, RenderNumber(n)) && IsNumber(n)
    ensures Crosses(text, k, RenderNumber(n), depth)
  {
    assert n.fraction == "" || n.fraction == [n.fraction[0]] + n.fraction[1..];
    assert n.exponent == "" || n.exponent == [n.exponent[0]] + n.exponent[1..];
    assert n.exponent == "" || n.exponent == [n.exponent[0], n.exponent[1]] + n.exponent[2..];
    assert IsPlain(n.digits) && IsPlain(n.fraction) && IsPlain(n.exponent);
    CrossesPlain(text, k, RenderNumber(n), depth);
  }

  lemma CrossesBraced(text: string, k: nat, inside: string, depth: nat)
    requires Occupies(text, k, "{" + (inside + "}")) && depth >= 1
    requires Crosses(text, k + 1, inside, depth + 1)
    ensures Crosses(text, k, "{" + (inside + "}"), depth)
  {
    var shown := "{" + (inside + "}");
    CharAt(text, k, shown, 0);
    CharAt(text, k, shown, 1 + |inside|);
  }

  lemma CrossesBracketed(text: string, k: nat, inside: string, depth: nat)
    requires Occupies(text, k, "[" + (inside + "]"))
    requires Crosses(text, k + 1, inside, depth)
    ensures Crosses(text, k, "[" + (inside + "]"), depth)
  {
    var shown := "[" + (inside + "]");
    CharAt(text, k, shown, 0);
    CharAt(text, k, shown, 1 + |inside|);
  }

  lemma InsideBrackets(text: string, k: nat, open: char, inside: string, close: char)
    requires Occupies(text, k, [open] + (inside + [close]))
    ensures Occupies(text, k + 1, inside)
    ensures text[k] == open && text[k + 1 + |inside|] == close
  {
    OccupiesSplit(text, k, [open], inside + [close]);
    OccupiesSplit(text, k + 1, inside, [close]);
    CharAt(text, k, [open], 0);
    CharAt(text, k + 1 + |inside|, [close], 0);
  }

  lemma {:induction false} CrossesValue(text: string, k: nat, v: Value, depth: nat)
    requires Occupies(text, k, Render(v)) && IsValue(v) && depth >= 1
    ensures Crosses(text, k, Render(v), depth)
    decreases v
  {
    match v
    case Literal(name) => CrossesPlain(text, k, name, depth);
    case Numeric(number) => CrossesNumber(text, k, number, depth);
    case Text(chars) => CrossesString(text, k, chars, depth);
    case EmptyArray(blank) => CrossesPlain(text, k, "[" + blank + "]", depth);
    case Array(elements) =>
      var inside := RenderElements(elements);
      InsideBrackets(text, k, '[', inside, ']');
      CrossesElements(text, k + 1, elements, depth);
      CrossesBracketed(text, k, inside, depth);
    case Object(members) =>
      var inside := RenderMembers(members);
      InsideBrackets(text, k, '{', inside, '}');
      CrossesMembers(text, k + 1, members, depth + 1);
      CrossesBraced(text, k, inside, depth);
  }

  /** A value or name with white space, or other plain text, on both sides. */
  lemma CrossesPadded(text: string, k: nat, before: string, core: string, after: string, depth: nat)
    requires Occupies(text, k, before + (core + after)) && IsPlain(before) && IsPlain(after)
    requires Crosses(text, k + |before|, core, depth)
    ensures Crosses(text, k, before + (core + after), depth)
  {
    OccupiesSplit(text, k, before, core + after);
    OccupiesSplit(text, k + |before|, core, after);
    CrossesPlain(text, k, before, depth);
    CrossesPlain(text, k + |before| + |core|, after, depth);
    CrossesThree(text, k, before, core, after, depth);
  }

  lemma InsidePadding(text: string, k: nat, before: string, core: string, after: string)
    requires Occupies(text, k, before + (core + after))
    ensures Occupies(text, k + |before|, core) && Occupies(text, k + |before| + |core|, after)
  {
    OccupiesSplit(text, k, before, core + after);
    OccupiesSplit(text, k + |before|, core, after);
  }

  /** A comma-separated list with one more item in front. */
  lemma CrossesListed(text: string, k: nat, one: string, rest: string, depth: nat)
    requires Occupies(text, k, one + ("," + rest))
    requires Crosses(text, k, one, depth) && Crosses(text, k + |one| + 1, rest, depth)
    ensures Crosses(text, k, one + ("," + rest), depth)
  {
    InsidePadding(text, k, one, ",", rest);
    CrossesPlain(text, k + |one|, ",", depth);
    CrossesThree(text, k, one, ",", rest, depth);
  }

  lemma InsideList(text: string, k: nat, one: string, rest: string)
    requires Occupies(text, k, one + ("," + rest))
    ensures Occupies(text, k, one) && Occupies(text, k + |one| + 1, rest)
  {
    InsidePadding(text, k, one, ",", rest);
    OccupiesSplit(text, k, one, "," + rest);
  }

  lemma {:induction false} CrossesElement(text: string, k: nat, e: Elements, depth: nat)
    requires Occupies(text, k, e.before + (Render(e.value) + e.after)) && IsElements(e) && depth >= 1
    ensures Crosses(text, k, e.before + (Render(e.value) + e.after), depth)
    decreases e, 0
  {
    InsidePadding(text, k, e.before, Render(e.value), e.after);
    CrossesValue(text, k + |e.before|, e.value, depth);
    CrossesPadded(text, k, e.before, Render(e.value), e.after, depth);
  }

  lemma {:induction false} CrossesElements(text: string, k: nat, e: Elements, depth: nat)
    requires Occupies(text, k, RenderElements(e)) && IsElements(e) && depth >= 1
    ensures Crosses(text, k, RenderElements(e), depth)
    decreases e, 1
  {
    var one := e.before + (Render(e.value) + e.after);
    match e
    case LastElement(_, _, _) => CrossesElement(text, k, e, depth);
    case Element(_, _, _, others) =>
      var rest := RenderElements(others);
      InsideList(text, k, one, rest);
      CrossesElement(text, k, e, depth);
      CrossesElements(text, k + |one| + 1, others, depth);
      CrossesListed(text, k, one, rest, depth);
  }

  lemma {:induction false} CrossesMembers(text: string, k: nat, m: Members, depth: nat)
    requires Occupies(text, k, RenderMembers(m)) && IsMembers(m) && depth >= 1
    ensures Crosses(text, k, RenderMembers(m), depth)
    decreases m
  {
    match m
    case NoMembers(blank) => CrossesPlain(text, k, blank, depth);
    case Members(first, others) =>
      var one, rest := RenderMember(first), RenderOtherMembers(others);
      OccupiesSplit(text, k, one, rest);
      CrossesMember(text, k, first, depth);
      CrossesOtherMembers(text, k + |one|, others, depth);
      CrossesPair(text, k, one, rest, depth);
  }

  lemma {:induction false} CrossesOtherMembers(text: string, k: nat, o: OtherMembers, depth: nat)
    requires Occupies(text, k, RenderOtherMembers(o)) && IsOtherMembers(o) && depth >= 1
    ensures Crosses(text, k, RenderOtherMembers(o), depth)
    decreases o
  {
    match o
    case End =>
    case Then(next, others) =>
      var one, rest := RenderMember(next), RenderOtherMembers(others);
      InsidePadding(text, k, ",", one, rest);
      OccupiesSplit(text, k, ",", one + rest);
      CrossesPlain(text, k, ",", depth);
      CrossesMember(text, k + 1, next, depth);
      CrossesOtherMembers(text, k + 1 + |one|, others, depth);
      CrossesThree(text, k, ",", one, rest, depth);
  }

  /** Everything of a member after its name. */
  lemma {:induction false} CrossesMemberTail(text: string, k: nat, m: Member, depth: nat)
    requires Occupies(text, k, Colon(m) + (Render(m.value) + m.after)) && IsMember(m) && depth >= 1
    ensures Crosses(text, k, Colon(m) + (Render(m.value) + m.after), depth)
    decreases m, 0
  {
    InsidePadding(text, k, Colon(m), Render(m.value), m.after);
    CrossesValue(text, k + |Colon(m)|, m.value, depth);
    CrossesPadded(text, k, Colon(m), Render(m.value), m.after, depth);
  }

  /** White space, a name, and what follows the name. */
  lemma CrossesNamed(text: string, k: nat, before: string, name: seq<StringChar>, tail: string, depth: nat)
    requires Occupies(text, k, before + (RenderString(name) + tail)) && IsPlain(before) && IsString(name)
    requires Crosses(text, k + |before| + |RenderString(name)|, tail, depth)
    ensures Crosses(text, k, before + (RenderString(name) + tail), depth)
  {
    InsidePadding(text, k, before, RenderString(name), tail);
    OccupiesSplit(text, k, before, RenderString(name) + tail);
    CrossesPlain(text, k, before, depth);
    CrossesString(text, k + |before|, name, depth);
    CrossesThree(text, k, before, RenderString(name), tail, depth);
  }

  lemma {:induction false} CrossesMember(text: string, k: nat, m: Member, depth: nat)
    requires Occupies(text, k, RenderMember(m)) && IsMember(m) && depth >= 1
    ensures Crosses(text, k, RenderMember(m), depth)
    decreases m, 1
  {
    var name, tail := RenderString(m.name), Colon(m) + (Render(m.value) + m.after);
    InsidePadding(text, k, m.before, name, tail);
    CrossesMemberTail(text, k + |m.before| + |name|, m, depth);
    CrossesNamed(text, k, m.before, m.name, tail, depth);
  }

  // ----- The theorem

  /** An object of the grammar stands at `start` and ends just before `end`. */
  ghost predicate IsObjectAt(text: string, start: nat, end: nat) {
    exists m: Members ::
      IsMembers(m) && end == start + |Render(Object(m))| && Occupies(text, start, Render(Object(m)))
  }

  /** White space of the grammar is white space to the scanner, so it looks past the run and sees
    the quotation mark of the first name, or the closing brace. */
  lemma {:induction false} SpacesEndAt(text: string, j: nat, blank: string)
    requires Occupies(text, j, blank) && IsBlank(blank)
    requires j + |blank| < |text| && !IsSpace(text[j + |blank|])
    ensures SkipSpaces(text, j) == j + |blank|
    decreases |blank|
  {
    if blank != "" {
      CharAt(text, j, blank, 0);
      assert blank == blank[..1] + blank[1..];
      OccupiesSplit(text, j, blank[..1], blank[1..]);
      SpacesEndAt(text, j + 1, blank[1..]);
    }
  }

  lemma QuoteFollowsSpaces(text: string, k: nat, blank: string, quoted: string, tail: string)
    requires Occupies(text, k, blank + (quoted + tail)) && IsBlank(blank)
    requires quoted != "" && quoted[0] == '"'
    ensures
      var j := SkipSpaces(text, k);
      j < |text| && text[j] == '"'
  {
    InsidePadding(text, k, blank, quoted, tail);
    OccupiesSplit(text, k, blank, quoted + tail);
    CharAt(text, k + |blank|, quoted, 0);
    SpacesEndAt(text, k, blank);
  }

  lemma ObjectIsScannable(text: string, start: nat, m: Members)
    requires IsMembers(m) && Occupies(text, start, Render(Object(m)))
    ensures IsOpenBrace(text, start) && OpensAnObject(text, start)
  {
    InsideBrackets(text, start, '{', RenderMembers(m), '}');
    match m
    case NoMembers(blank) =>
      SpacesEndAt(text, start + 1, blank);
    case Members(first, rest) =>
      OccupiesSplit(text, start + 1, RenderMember(first), RenderOtherMembers(rest));
      QuoteFollowsSpaces(text, start + 1, first.before, RenderString(first.name),
                         Colon(first) + (Render(first.value) + first.after));
  }

  /** For every object of RFC 8259 in any text, the filter accepts its brace and the search returns
    the index of its own closing brace. */
  lemma ObjectEndIsFound(text: string, start: nat, end: nat)
    requires IsObjectAt(text, start, end)
    ensures IsOpenBrace(text, start) && OpensAnObject(text, start)
    ensures PlainEnd(text, start) == Match(text, start) == end - 1
  {
    var m: Members :|
      IsMembers(m) && end == start + |Render(Object(m))| && Occupies(text, start, Render(Object(m)));
    ObjectIsScannable(text, start, m);
    InsideBrackets(text, start, '{', RenderMembers(m), '}');
    CrossesMembers(text, start + 1, m, 1);
  }

  /** So at most one object of the grammar starts at a brace: no object is a proper prefix of
    another. */
  lemma ObjectEndIsUnique(text: string, start: nat, end1: nat, end2: nat)
    requires IsObjectAt(text, start, end1) && IsObjectAt(text, start, end2)
    ensures end1 == end2
  {
    ObjectEndIsFound(text, start, end1);
    ObjectEndIsFound(text, start, end2);
  }
}
