/** `_parse_raw_diff_changed_files`: the changed paths of `git diff --raw -z`.

  A record is a header, which starts with a colon and ends with the status, and one path, or two for
  a rename or a copy. Every token ends with NUL. */
module RawDiff {
  import opened Wrappers
  import opened Sequences
  import JsonText

  const NUL: char := '\0'

  datatype Error = MalformedHeader(token: string) | TruncatedRename(token: string) | TruncatedRecord(token: string)

  // ----- Python's string calls

  function RStripNul(s: string): string {
    if s != "" && s[|s| - 1] == NUL then RStripNul(s[..|s| - 1]) else s
  }

  function RStripSpace(s: string): string {
    if s != "" && JsonText.IsSpace(s[|s| - 1]) then RStripSpace(s[..|s| - 1]) else s
  }

  /** The word at the end of `s`, back to the last white space. */
  function LastWord(s: string): string {
    if s == "" || JsonText.IsSpace(s[|s| - 1]) then ""
    else LastWord(s[..|s| - 1]) + [s[|s| - 1]]
  }

  /** `token.split()[-1]`, or the empty string when there is no field. */
  function LastField(token: string): string {
    LastWord(RStripSpace(token))
  }

  predicate NamesTwoPaths(status: string) {
    status != "" && status[0] in {'R', 'C'}
  }

  ghost predicate IsAll(s: string, c: char) {
    forall i | 0 <= i < |s| :: s[i] == c
  }

  predicate IsBlank(s: string) {
    forall i | 0 <= i < |s| :: JsonText.IsSpace(s[i])
  }

  predicate IsWord(s: string) {
    forall i | 0 <= i < |s| :: !JsonText.IsSpace(s[i])
  }

  lemma {:induction false} StripsNuls(s: string)
    ensures RStripNul(s) <= s && IsAll(s[|RStripNul(s)|..], NUL)
    ensures RStripNul(s) != "" ==> RStripNul(s)[|RStripNul(s)| - 1] != NUL
  {
    if s != "" && s[|s| - 1] == NUL {
      StripsNuls(s[..|s| - 1]);
    }
  }

  /** The last field has no white space in it, before it is white space or nothing, and after it only white
    space; it is empty only when the token is all white space. */
  lemma LastFieldIs(token: string, before: string, word: string, after: string)
    requires token == before + (word + after) && IsWord(word) && IsBlank(after)
    requires before == "" || JsonText.IsSpace(before[|before| - 1])
    requires word == "" ==> before == ""
    ensures LastField(token) == word
  {
    var s := before + word;
    assert token == s + after;
    assert RStripSpace(token) == s by {
      RStripOnlySpaces(s, after);
    }
    LastWordOf(before, word);
  }

  lemma {:induction false} RStripOnlySpaces(s: string, after: string)
    requires IsBlank(after) && (s == "" || !JsonText.IsSpace(s[|s| - 1]))
    ensures RStripSpace(s + after) == s
  {
    if after == "" {
      assert s + after == s;
    } else {
      assert (s + after)[..|s + after| - 1] == s + after[..|after| - 1];
      RStripOnlySpaces(s, after[..|after| - 1]);
    }
  }

  // ----- Parsing

  /** The paths of the record at `idx` and the index after it. */
  function RawDiffRecord(parts: seq<string>, idx: nat): (r: Result<(seq<string>, nat), Error>)
    requires idx < |parts|
    ensures r.Ok? ==> idx < r.value.1 <= |parts| && r.value.0 == parts[idx + 1..r.value.1]
  {
    var token := parts[idx];
    if token == "" || token[0] != ':' then Err(MalformedHeader(token))
    else if NamesTwoPaths(LastField(token)) then
      if idx + 2 >= |parts| then Err(TruncatedRename(token)) else Ok((parts[idx + 1..idx + 3], idx + 3))
    else if idx + 1 >= |parts| then Err(TruncatedRecord(token))
    else Ok((parts[idx + 1..idx + 2], idx + 2))
  }

  /** A dictionary of keys keeps the first position of each; empty paths are left out. */
  function AddPath(found: seq<string>, path: string): seq<string> {
    if path == "" || path in found then found else found + [path]
  }

  function AddPaths(found: seq<string>, paths: seq<string>): seq<string>
    decreases |paths|
  {
    if paths == [] then found else AddPaths(AddPath(found, paths[0]), paths[1..])
  }

  function ParseFrom(parts: seq<string>, idx: nat, found: seq<string>): Result<seq<string>, Error>
    decreases |parts| - idx
  {
    if idx >= |parts| then Ok(found)
    else if parts[idx] == "" then ParseFrom(parts, idx + 1, found)
    else
      match RawDiffRecord(parts, idx)
      case Err(e) => Err(e)
      case Ok((paths, next)) => ParseFrom(parts, next, AddPaths(found, paths))
  }

  function Parse(output: string): Result<seq<string>, Error> {
    if output == "" then Ok([]) else ParseFrom(Split(RStripNul(output), NUL), 0, [])
  }

  method ParseRawDiffChangedFiles(output: string) returns (r: Result<seq<string>, Error>)
    ensures r == Parse(output)
  {
    if output == "" {
      return Ok([]);
    }
    var changed: seq<string> := [];
    var parts := Split(RStripNul(output), NUL);
    var idx := 0;
    while idx < |parts|
      invariant ParseFrom(parts, 0, []) == ParseFrom(parts, idx, changed)
      decreases |parts| - idx
    {
      if parts[idx] == "" {
        idx := idx + 1;
        continue;
      }
      match RawDiffRecord(parts, idx) {
        case Err(e) =>
          return Err(e);
        case Ok((paths, next)) =>
          changed, idx := AddPaths(changed, paths), next;
      }
    }
    return Ok(changed);
  }

  // ----- What git writes

  /** `meta` holds the modes and the object names; `status` is a letter with an optional score. */
  datatype Record =
    | OnePath(meta: string, status: string, path: string)
    | TwoPaths(meta: string, status: string, source: string, destination: string)

  function Header(r: Record): string {
    ":" + r.meta + " " + r.status
  }

  function Paths(r: Record): seq<string> {
    match r
    case OnePath(_, _, path) => [path]
    case TwoPaths(_, _, source, destination) => [source, destination]
  }

  function Tokens(rs: seq<Record>): seq<string> {
    if rs == [] then [] else [Header(rs[0])] + Paths(rs[0]) + Tokens(rs[1..])
  }

  function AllPaths(rs: seq<Record>): seq<string> {
    if rs == [] then [] else Paths(rs[0]) + AllPaths(rs[1..])
  }

  function Terminated(tokens: seq<string>): string {
    if tokens == [] then "" else tokens[0] + [NUL] + Terminated(tokens[1..])
  }

  /** The output for a list of records. Paths can be anything else that is not empty and has no NUL:
    with a leading colon, with white space, or equal to a status code. */
  function Render(rs: seq<Record>): string {
    Terminated(Tokens(rs))
  }

  predicate IsToken(s: string) {
    s != "" && NUL !in s
  }

  /** Git writes two paths for a rename (`R`) or a copy (`C`), and one for an addition (`A`), a deletion (`D`),
    a modification (`M`), a change of type (`T`) and the rest. */
  predicate IsRecord(r: Record) {
    && NUL !in r.meta && IsToken(r.status)
    && (forall i | 0 <= i < |r.status| :: !JsonText.IsSpace(r.status[i]))
    && (r.TwoPaths? <==> r.status[0] == 'R' || r.status[0] == 'C')
    && AreTokens(Paths(r))
  }

  predicate AreRecords(rs: seq<Record>) {
    forall i | 0 <= i < |rs| :: IsRecord(rs[i])
  }

  predicate AreTokens(tokens: seq<string>) {
    forall i | 0 <= i < |tokens| :: IsToken(tokens[i])
  }

  // ----- Splitting undoes terminating

  lemma {:induction false} StripsToJoined(tokens: seq<string>)
    requires tokens != [] && AreTokens(tokens)
    ensures Terminated(tokens) == Joined(tokens, [NUL]) + [NUL]
    ensures Joined(tokens, [NUL]) != "" && Joined(tokens, [NUL])[|Joined(tokens, [NUL])| - 1] != NUL
  {
    if |tokens| == 1 {
      assert Terminated(tokens[1..]) == "";
    } else {
      StripsToJoined(tokens[1..]);
    }
  }

  lemma SplitsTerminated(tokens: seq<string>)
    requires tokens != [] && AreTokens(tokens)
    ensures Split(RStripNul(Terminated(tokens)), NUL) == tokens && Terminated(tokens) != ""
  {
    StripsToJoined(tokens);
    var s := Terminated(tokens);
    assert s[..|s| - 1] == Joined(tokens, [NUL]);
    assert RStripNul(Joined(tokens, [NUL])) == Joined(tokens, [NUL]);
    SplitUndoesJoined(tokens, NUL);
  }

  // ----- The status

  lemma {:induction false} LastWordOf(front: string, word: string)
    requires front == "" || JsonText.IsSpace(front[|front| - 1])
    requires forall i | 0 <= i < |word| :: !JsonText.IsSpace(word[i])
    ensures LastWord(front + word) == word
  {
    if word == "" {
      assert front + word == front;
    } else {
      var s, shorter := front + word, word[..|word| - 1];
      assert s[..|s| - 1] == front + shorter;
      LastWordOf(front, shorter);
      assert word == shorter + [word[|word| - 1]];
    }
  }

  lemma StatusIsLastField(r: Record)
    requires IsRecord(r)
    ensures LastField(Header(r)) == r.status
  {
    var front := ":" + r.meta + " ";
    assert Header(r) == front + r.status;
    LastWordOf(front, r.status);
  }

  lemma {:induction false} TokensAreTokens(rs: seq<Record>)
    requires AreRecords(rs)
    ensures AreTokens(Tokens(rs))
  {
    if rs != [] {
      TokensAreTokens(rs[1..]);
    }
  }

  // ----- Any tokens

  /** What the parser reads: an empty token, or a header and its paths. */
  datatype Item = Blank | Entry(header: string, paths: seq<string>)

  /** A header starts with a colon. If its last field starts with `R` or `C`, two tokens follow, else one. */
  predicate IsItem(item: Item) {
    item.Entry? ==>
      && item.header != "" && item.header[0] == ':'
      && var status := LastField(item.header);
      |item.paths| == if status != "" && (status[0] == 'R' || status[0] == 'C') then 2 else 1
  }

  predicate AreItems(items: seq<Item>) {
    forall i | 0 <= i < |items| :: IsItem(items[i])
  }

  function PathsOf(item: Item): seq<string> {
    if item.Blank? then [] else item.paths
  }

  function TokensOf(item: Item): seq<string> {
    if item.Blank? then [""] else [item.header] + item.paths
  }

  function Flat(items: seq<Item>): seq<string> {
    if items == [] then [] else TokensOf(items[0]) + Flat(items[1..])
  }

  function ItemPaths(items: seq<Item>): seq<string> {
    if items == [] then [] else PathsOf(items[0]) + ItemPaths(items[1..])
  }

  lemma ParsesItem(parts: seq<string>, idx: nat, item: Item, tail: seq<string>, found: seq<string>)
    requires IsItem(item) && idx <= |parts| && parts[idx..] == TokensOf(item) + tail
    ensures
      var next := idx + |TokensOf(item)|;
      && next <= |parts| && parts[next..] == tail
      && ParseFrom(parts, idx, found) == ParseFrom(parts, next, AddPaths(found, PathsOf(item)))
  {
    var next, here := idx + |TokensOf(item)|, parts[idx..];
    assert parts[idx] == here[0] == TokensOf(item)[0];
    assert parts[next..] == here[|TokensOf(item)|..] == tail;
    if item.Entry? {
      assert parts[idx + 1..next] == here[1..|TokensOf(item)|] == item.paths;
      assert RawDiffRecord(parts, idx) == Ok((item.paths, next));
    }
  }

  lemma Associates(a: seq<string>, b: seq<string>, c: seq<string>)
    ensures (a + b) + c == a + (b + c)
  {
  }

  lemma FlatUnfolds(items: seq<Item>, rest: seq<string>)
    requires items != []
    ensures Flat(items) + rest == TokensOf(items[0]) + (Flat(items[1..]) + rest)
    ensures |Flat(items)| == |TokensOf(items[0])| + |Flat(items[1..])|
  {
    Associates(TokensOf(items[0]), Flat(items[1..]), rest);
  }

  lemma PathsUnfold(found: seq<string>, items: seq<Item>)
    requires items != []
    ensures AddPaths(found, ItemPaths(items)) == AddPaths(AddPaths(found, PathsOf(items[0])), ItemPaths(items[1..]))
  {
    AddPathsConcat(found, PathsOf(items[0]), ItemPaths(items[1..]));
  }

  lemma ItemsOfTail(items: seq<Item>)
    requires items != [] && AreItems(items)
    ensures IsItem(items[0]) && AreItems(items[1..])
  {
  }

  /** From the tokens of `items` at `idx` on, the parser adds exactly their paths, which gives `all`. */
  lemma {:induction false} ParsesItems(parts: seq<string>, idx: nat, items: seq<Item>, rest: seq<string>,
                                       found: seq<string>, end: nat, all: seq<string>)
    requires idx <= |parts| && parts[idx..] == Flat(items) + rest
    requires AreItems(items)
    requires end == idx + |Flat(items)| && all == AddPaths(found, ItemPaths(items))
    ensures ParseFrom(parts, idx, found) == ParseFrom(parts, end, all)
    decreases |items|
  {
    if items != [] {
      ItemsOfTail(items);
      FlatUnfolds(items, rest);
      PathsUnfold(found, items);
      ParsesItem(parts, idx, items[0], Flat(items[1..]) + rest, found);
      ParsesItems(parts, idx + |TokensOf(items[0])|, items[1..], rest, AddPaths(found, PathsOf(items[0])), end, all);
    }
  }

  lemma {:induction false} ItemsParsed(parts: seq<string>, idx: nat, found: seq<string>) returns (items: seq<Item>)
    requires idx <= |parts| && ParseFrom(parts, idx, found).Ok?
    ensures AreItems(items) && Flat(items) == parts[idx..]
    decreases |parts| - idx
  {
    items := [];
    if idx < |parts| {
      var item, next, more := Blank, idx + 1, found;
      if parts[idx] != "" {
        var (paths, after) := RawDiffRecord(parts, idx).value;
        item, next, more := Entry(parts[idx], paths), after, AddPaths(found, paths);
      }
      assert IsItem(item) && parts[idx..] == TokensOf(item) + parts[next..];
      var others := ItemsParsed(parts, next, more);
      items := [item] + others;
    }
  }

  /** Any output at all: it is parsed exactly when its tokens are headers with as many paths as they call for
    and empty tokens between; then the result holds their paths that are not empty, each once, in the order
    of their first occurrence. */
  lemma ParsesExactlyWhen(output: string)
    ensures
      var tokens := Split(RStripNul(output), NUL);
      && (Parse(output).Ok? <==> exists items :: AreItems(items) && Flat(items) == tokens)
      && forall items | AreItems(items) && Flat(items) == tokens ::
           Parse(output).Ok? && IsDistinctInOrder(NonEmpty(ItemPaths(items)), Parse(output).value)
  {
    var tokens := Split(RStripNul(output), NUL);
    assert tokens[0..] == tokens;
    if Parse(output).Ok? {
      assert output == "" ==> tokens == [""] && ParseFrom(tokens, 1, []) == Ok([]);
      var items := ItemsParsed(tokens, 0, []);
    }
    forall items | AreItems(items) && Flat(items) == tokens
      ensures Parse(output).Ok? && IsDistinctInOrder(NonEmpty(ItemPaths(items)), Parse(output).value)
    {
      ItemsLeadTo(output, items);
    }
  }

  lemma ItemsLeadTo(output: string, items: seq<Item>)
    requires AreItems(items) && Flat(items) == Split(RStripNul(output), NUL)
    ensures Parse(output).Ok? && IsDistinctInOrder(NonEmpty(ItemPaths(items)), Parse(output).value)
  {
    var tokens, all := Flat(items), AddPaths([], ItemPaths(items));
    assert tokens[0..] == Flat(items) + [];
    ParsesItems(tokens, 0, items, [], [], |tokens|, all);
    assert output == "" ==> tokens == [""] && ParseFrom(tokens, 1, []) == Ok([]);
    AddPathsIsDistinct([], [], ItemPaths(items));
    assert [] + NonEmpty(ItemPaths(items)) == NonEmpty(ItemPaths(items));
  }

  lemma {:induction false} AddPathsConcat(found: seq<string>, a: seq<string>, b: seq<string>)
    ensures AddPaths(found, a + b) == AddPaths(AddPaths(found, a), b)
    decreases |a|
  {
    if a == [] {
      assert a + b == b;
    } else {
      assert (a + b)[1..] == a[1..] + b;
      AddPathsConcat(AddPath(found, a[0]), a[1..], b);
    }
  }

  function WithPath(s: seq<string>, path: string): seq<string> {
    if path == "" then s else s + [path]
  }

  lemma AddPathIsDistinct(s: seq<string>, d: seq<string>, path: string)
    requires IsDistinctInOrder(s, d)
    ensures IsDistinctInOrder(WithPath(s, path), AddPath(d, path))
  {
    OneMoreInOrder(s, d, path);
  }

  lemma {:induction false} AddPathsIsDistinct(s: seq<string>, d: seq<string>, paths: seq<string>)
    requires IsDistinctInOrder(s, d)
    ensures IsDistinctInOrder(s + NonEmpty(paths), AddPaths(d, paths))
    decreases |paths|
  {
    if paths == [] {
      assert s + NonEmpty(paths) == s;
    } else {
      AddPathIsDistinct(s, d, paths[0]);
      AddPathsIsDistinct(WithPath(s, paths[0]), AddPath(d, paths[0]), paths[1..]);
      WithPathUnfolds(s, paths);
    }
  }

  lemma WithPathUnfolds(s: seq<string>, paths: seq<string>)
    requires paths != []
    ensures s + NonEmpty(paths) == WithPath(s, paths[0]) + NonEmpty(paths[1..])
  {
    var rest := NonEmpty(paths[1..]);
    if paths[0] != "" {
      assert s + ([paths[0]] + rest) == (s + [paths[0]]) + rest;
    }
  }

  // ----- The round trip

  function ItemsOf(rs: seq<Record>): seq<Item> {
    if rs == [] then [] else [Entry(Header(rs[0]), Paths(rs[0]))] + ItemsOf(rs[1..])
  }

  lemma {:induction false} RecordsAreItems(rs: seq<Record>)
    requires AreRecords(rs)
    ensures AreItems(ItemsOf(rs)) && Flat(ItemsOf(rs)) == Tokens(rs)
    ensures ItemPaths(ItemsOf(rs)) == NonEmpty(ItemPaths(ItemsOf(rs))) == AllPaths(rs)
  {
    if rs != [] {
      var item, rest := Entry(Header(rs[0]), Paths(rs[0])), ItemsOf(rs[1..]);
      StatusIsLastField(rs[0]);
      RecordsAreItems(rs[1..]);
      assert ItemsOf(rs)[1..] == rest;
      NonEmptyOfAll(Paths(rs[0]));
      NonEmptyConcat(Paths(rs[0]), AllPaths(rs[1..]));
    }
  }

  /** Parsing what git writes for any list of records returns exactly their paths, each once, in the
    order of their first occurrence, both sides of renames and copies included. */
  lemma ParseOfRender(rs: seq<Record>)
    requires AreRecords(rs)
    ensures Parse(Render(rs)).Ok? && IsDistinctInOrder(AllPaths(rs), Parse(Render(rs)).value)
  {
    if rs != [] {
      TokensAreTokens(rs);
      SplitsTerminated(Tokens(rs));
      RecordsAreItems(rs);
      ItemsLeadTo(Render(rs), ItemsOf(rs));
    }
  }

  /** A header without all of its paths at the end of the output is refused, so no change is lost. */
  lemma TruncatedOutputIsRefused(rs: seq<Record>, last: Record, kept: nat)
    requires AreRecords(rs)
    requires IsRecord(last) && kept < |Paths(last)|
    ensures Parse(Terminated(Tokens(rs) + [Header(last)] + Paths(last)[..kept])).Err?
  {
    var parts := Tokens(rs) + [Header(last)] + Paths(last)[..kept];
    TokensAreTokens(rs);
    assert AreTokens(parts);
    SplitsTerminated(parts);
    var rest := [Header(last)] + Paths(last)[..kept];
    assert parts[0..] == Tokens(rs) + rest;
    var at, all := |Tokens(rs)|, AddPaths([], AllPaths(rs));
    RecordsAreItems(rs);
    ParsesItems(parts, 0, ItemsOf(rs), rest, [], at, all);
    assert parts[at..] == rest;
    LastRecordIsRefused(parts, at, last, kept, all);
  }

  lemma LastRecordIsRefused(parts: seq<string>, idx: nat, last: Record, kept: nat, found: seq<string>)
    requires IsRecord(last) && kept < |Paths(last)|
    requires idx < |parts| && parts[idx..] == [Header(last)] + Paths(last)[..kept]
    ensures ParseFrom(parts, idx, found).Err?
  {
    assert parts[idx] == parts[idx..][0] == Header(last);
    assert |parts| == idx + 1 + kept;
    StatusIsLastField(last);
  }
}
