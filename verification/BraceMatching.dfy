/** What a brace and the brace that closes it are, in any text: a grammar of strings and braces alone, and the
  theorem that `Match` finds exactly what it describes. */
module BraceMatching {
  import opened JsonText
  import opened JsonGrammar

  /** A character of its own, a string with its quotation marks, or pieces in braces. */
  datatype Piece = Single(c: char) | Quoted(inside: string) | Braced(pieces: seq<Piece>)

  /** Each backslash takes the next character with it, and no other character is a quotation mark. */
  predicate IsQuotable(s: string) {
    s != "" ==>
      if s[0] == '\\' then |s| >= 2 && IsQuotable(s[2..]) else s[0] != '"' && IsQuotable(s[1..])
  }

  predicate IsPiece(piece: Piece) {
    match piece
    case Single(c) => c !in {'"', '{', '}'}
    case Quoted(inside) => IsQuotable(inside)
    case Braced(pieces) => ArePieces(pieces)
  }

  predicate ArePieces(pieces: seq<Piece>) {
    pieces != [] ==> IsPiece(pieces[0]) && ArePieces(pieces[1..])
  }

  function Show(piece: Piece): string {
    match piece
    case Single(c) => [c]
    case Quoted(inside) => "\"" + (inside + "\"")
    case Braced(pieces) => "{" + (ShowAll(pieces) + "}")
  }

  function ShowAll(pieces: seq<Piece>): string {
    if pieces == [] then "" else Show(pieces[0]) + ShowAll(pieces[1..])
  }

  /** Pieces in braces stand at `start`, and their closing brace at `end`. */
  ghost predicate ClosesAt(text: string, start: nat, end: int) {
    exists pieces ::
      && ArePieces(pieces) && Occupies(text, start, "{" + (ShowAll(pieces) + "}"))
      && end == start + 1 + |ShowAll(pieces)|
  }

  // ----- A pass crosses pieces

  lemma {:induction false} CrossesQuotable(text: string, k: nat, inside: string, depth: nat)
    requires Occupies(text, k, inside) && IsQuotable(inside)
    ensures CrossesInside(text, k, inside, depth)
    decreases |inside|
  {
    if inside != "" {
      var n := if inside[0] == '\\' then 2 else 1;
      assert inside == inside[..n] + inside[n..];
      OccupiesSplit(text, k, inside[..n], inside[n..]);
      CharAt(text, k, inside, 0);
      CrossesQuotable(text, k + n, inside[n..], depth);
      if n == 2 {
        assert MatchFrom(text, k, true, false, depth) == MatchFrom(text, k + 1, true, true, depth);
      }
    }
  }

  lemma {:induction false} CrossesPiece(text: string, k: nat, piece: Piece, depth: nat)
    requires Occupies(text, k, Show(piece)) && IsPiece(piece) && depth >= 1
    ensures Crosses(text, k, Show(piece), depth)
    decreases piece
  {
    match piece
    case Single(c) => CharAt(text, k, [c], 0);
    case Quoted(inside) =>
      InsideBrackets(text, k, '"', inside, '"');
      CrossesQuotable(text, k + 1, inside, depth);
      CrossesQuoted(text, k, inside, depth);
    case Braced(pieces) =>
      InsideBrackets(text, k, '{', ShowAll(pieces), '}');
      CrossesPieces(text, k + 1, pieces, depth + 1);
      CrossesBraced(text, k, ShowAll(pieces), depth);
  }

  lemma {:induction false} CrossesPieces(text: string, k: nat, pieces: seq<Piece>, depth: nat)
    requires Occupies(text, k, ShowAll(pieces)) && ArePieces(pieces) && depth >= 1
    ensures Crosses(text, k, ShowAll(pieces), depth)
    decreases pieces
  {
    if pieces != [] {
      var one, rest := Show(pieces[0]), ShowAll(pieces[1..]);
      OccupiesSplit(text, k, one, rest);
      CrossesPiece(text, k, pieces[0], depth);
      CrossesPieces(text, k + |one|, pieces[1..], depth);
      CrossesPair(text, k, one, rest, depth);
    }
  }

  // ----- A pass that ends has crossed pieces

  /** `s` stands in the text from `k` up to `to`. */
  predicate Stands(text: string, k: nat, to: nat, s: string) {
    k <= to <= |text| && text[k..to] == s
  }

  lemma StandsConsed(text: string, k: nat, mid: nat, to: nat, a: string, b: string)
    requires Stands(text, k, mid, a) && Stands(text, mid, to, b)
    ensures Stands(text, k, to, a + b)
  {
    assert text[k..to] == text[k..mid] + text[mid..to];
  }

  /** A string that a pass leaves, from inside it. */
  lemma {:induction false} StringIsQuotable(text: string, k: nat, depth: nat) returns (inside: string, close: nat)
    requires k <= |text| && MatchFrom(text, k, true, false, depth) != NOT_FOUND
    ensures IsQuotable(inside) && Stands(text, k, close, inside) && close < |text| && text[close] == '"'
    ensures MatchFrom(text, close + 1, false, false, depth) == MatchFrom(text, k, true, false, depth)
    decreases |text| - k
  {
    if text[k] == '"' {
      inside, close := "", k;
    } else {
      var n := if text[k] == '\\' then 2 else 1;
      assert n == 2 ==> MatchFrom(text, k, true, false, depth) == MatchFrom(text, k + 1, true, true, depth);
      var rest;
      rest, close := StringIsQuotable(text, k + n, depth);
      inside := text[k..k + n] + rest;
      StandsConsed(text, k, k + n, close, text[k..k + n], rest);
      assert inside[n..] == rest;
    }
  }

  /** Up to the first brace that closes one opened before. */
  lemma {:induction false} PassIsPieces(text: string, k: nat, depth: nat) returns (pieces: seq<Piece>, close: nat)
    requires k <= |text| && depth >= 1 && MatchFrom(text, k, false, false, depth) != NOT_FOUND
    ensures ArePieces(pieces) && Stands(text, k, close, ShowAll(pieces)) && close < |text| && text[close] == '}'
    ensures
      var end := MatchFrom(text, k, false, false, depth);
      if depth == 1 then end == close else end == MatchFrom(text, close + 1, false, false, depth - 1)
    decreases |text| - k
  {
    if text[k] == '}' {
      pieces, close := [], k;
    } else {
      var first, next := PieceAt(text, k, depth);
      var rest;
      rest, close := PassIsPieces(text, next, depth);
      pieces := [first] + rest;
      StandsConsed(text, k, next, close, Show(first), ShowAll(rest));
      assert pieces[1..] == rest;
    }
  }

  lemma {:induction false} PieceAt(text: string, k: nat, depth: nat) returns (piece: Piece, next: nat)
    requires k < |text| && text[k] != '}' && depth >= 1 && MatchFrom(text, k, false, false, depth) != NOT_FOUND
    ensures IsPiece(piece) && k < next && Stands(text, k, next, Show(piece))
    ensures MatchFrom(text, next, false, false, depth) == MatchFrom(text, k, false, false, depth)
    decreases |text| - k, 0
  {
    if text[k] == '"' {
      var inside, close := StringIsQuotable(text, k + 1, depth);
      piece, next := Quoted(inside), close + 1;
      StandsBetween(text, k, close, '"', inside, '"');
    } else if text[k] == '{' {
      var pieces, close := PassIsPieces(text, k + 1, depth + 1);
      piece, next := Braced(pieces), close + 1;
      StandsBetween(text, k, close, '{', ShowAll(pieces), '}');
    } else {
      piece, next := Single(text[k]), k + 1;
    }
  }

  lemma StandsBetween(text: string, k: nat, close: nat, open: char, inside: string, closing: char)
    requires k < close < |text| && text[k] == open && text[close] == closing && Stands(text, k + 1, close, inside)
    ensures Stands(text, k, close + 1, [open] + (inside + [closing]))
  {
    StandsConsed(text, k + 1, close, close + 1, inside, [closing]);
    StandsConsed(text, k, k + 1, close + 1, [open], inside + [closing]);
  }

  // ----- The theorem

  lemma FoundCloses(text: string, start: nat)
    requires IsOpenBrace(text, start) && Match(text, start) != NOT_FOUND
    ensures ClosesAt(text, start, Match(text, start))
  {
    var pieces, close := PassIsPieces(text, start + 1, 1);
    assert Match(text, start) == MatchFrom(text, start + 1, false, false, 1) == close;
    StandsBetween(text, start, close, '{', ShowAll(pieces), '}');
  }

  lemma PiecesAreFound(text: string, start: nat, pieces: seq<Piece>)
    requires IsOpenBrace(text, start) && ArePieces(pieces)
    requires Occupies(text, start, "{" + (ShowAll(pieces) + "}"))
    ensures Match(text, start) == start + 1 + |ShowAll(pieces)|
  {
    InsideBrackets(text, start, '{', ShowAll(pieces), '}');
    CrossesPieces(text, start + 1, pieces, 1);
    assert Match(text, start) == MatchFrom(text, start + 1, false, false, 1);
  }

  /** In any text, JSON or not: the brace at `start` closes at `end` exactly when pieces in braces stand
    there. */
  lemma ClosesExactlyWhen(text: string, start: nat, end: int)
    requires IsOpenBrace(text, start)
    ensures end != NOT_FOUND && Match(text, start) == end <==> ClosesAt(text, start, end)
  {
    if Match(text, start) != NOT_FOUND {
      FoundCloses(text, start);
    }
    if pieces :|
      && ArePieces(pieces) && Occupies(text, start, "{" + (ShowAll(pieces) + "}"))
      && end == start + 1 + |ShowAll(pieces)|
    {
      PiecesAreFound(text, start, pieces);
    }
  }

  /** The next character that is not white space is a quotation mark or a closing brace. */
  ghost predicate LooksLikeObject(text: string, start: nat) {
    exists j | start < j < |text| ::
      (text[j] == '"' || text[j] == '}') && forall x | start < x < j :: IsSpace(text[x])
  }

  /** So a plain search from a brace finds `end` exactly when the brace looks like the start of an object and
    closes there. */
  lemma SearchFindsExactlyWhen(text: string, start: nat, end: int)
    requires IsOpenBrace(text, start)
    ensures end != NOT_FOUND && PlainEnd(text, start) == end <==>
      LooksLikeObject(text, start) && ClosesAt(text, start, end)
  {
    ClosesExactlyWhen(text, start, end);
    var j := SkipSpaces(text, start + 1);
    assert j < |text| ==> !IsSpace(text[j]);
    assert !IsSpace('"') && !IsSpace('}');
  }
}
