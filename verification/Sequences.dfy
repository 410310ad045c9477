/** Splitting and joining text, and the distinct elements of a list in the order of their first occurrence. */
module Sequences {

  // ----- Pieces

  /** Python's `split` at one character. */
  function Split(s: string, separator: char): (pieces: seq<string>)
    ensures pieces != []
  {
    if s == "" then [""]
    else
      var rest := Split(s[1..], separator);
      if s[0] == separator then [""] + rest else [[s[0]] + rest[0]] + rest[1..]
  }

  function Joined(pieces: seq<string>, separator: string): string
    requires pieces != []
  {
    if |pieces| == 1 then pieces[0] else pieces[0] + (separator + Joined(pieces[1..], separator))
  }

  predicate HaveNone(pieces: seq<string>, c: char) {
    forall i | 0 <= i < |pieces| :: c !in pieces[i]
  }

  /** Splitting cuts at every separator and nowhere else. */
  lemma {:induction false} SplitCuts(s: string, separator: char)
    ensures HaveNone(Split(s, separator), separator) && Joined(Split(s, separator), [separator]) == s
  {
    if s != "" {
      var rest := Split(s[1..], separator);
      SplitCuts(s[1..], separator);
      assert s == [s[0]] + s[1..];
      if s[0] == separator {
        assert ([""] + rest)[1..] == rest;
      } else {
        var pieces := [[s[0]] + rest[0]] + rest[1..];
        assert pieces[1..] == rest[1..];
        assert |rest| > 1 ==> Joined(rest, [separator]) == rest[0] + ([separator] + Joined(rest[1..], [separator]));
      }
    }
  }

  lemma {:induction false} SplitsOff(piece: string, rest: string, separator: char)
    requires separator !in piece
    ensures Split(piece + ([separator] + rest), separator) == [piece] + Split(rest, separator)
  {
    var s := piece + ([separator] + rest);
    if piece == "" {
      assert s[1..] == rest;
    } else {
      assert s[1..] == piece[1..] + ([separator] + rest);
      SplitsOff(piece[1..], rest, separator);
      assert piece == [piece[0]] + piece[1..];
    }
  }

  lemma {:induction false} SplitsWhole(piece: string, separator: char)
    requires separator !in piece
    ensures Split(piece, separator) == [piece]
  {
    if piece != "" {
      SplitsWhole(piece[1..], separator);
      assert piece == [piece[0]] + piece[1..];
    }
  }

  lemma {:induction false} SplitUndoesJoined(pieces: seq<string>, separator: char)
    requires pieces != [] && HaveNone(pieces, separator)
    ensures Split(Joined(pieces, [separator]), separator) == pieces
  {
    if |pieces| == 1 {
      SplitsWhole(pieces[0], separator);
    } else {
      SplitUndoesJoined(pieces[1..], separator);
      SplitsOff(pieces[0], Joined(pieces[1..], [separator]), separator);
    }
  }

  // ----- First occurrences

  function FirstIndex(s: seq<string>, x: string): (i: nat)
    requires x in s
    ensures i < |s| && s[i] == x && x !in s[..i]
  {
    if s[0] == x then 0 else 1 + FirstIndex(s[1..], x)
  }

  ghost predicate FirstBefore(s: seq<string>, x: string, y: string) {
    x in s && y in s && FirstIndex(s, x) < FirstIndex(s, y)
  }

  /** `d` holds the elements of `s`, each once, in the order of their first occurrence. */
  ghost predicate IsDistinctInOrder(s: seq<string>, d: seq<string>) {
    && (forall x | x in s :: x in d)
    && (forall x | x in d :: x in s)
    && (forall i, j {:trigger FirstBefore(s, d[i], d[j])} | 0 <= i < j < |d| :: FirstBefore(s, d[i], d[j]))
  }

  lemma {:induction false} FirstIndexStays(s: seq<string>, x: string, y: string)
    requires x in s
    ensures FirstIndex(s + [y], x) == FirstIndex(s, x)
  {
    if s[0] != x {
      assert (s + [y])[1..] == s[1..] + [y];
      FirstIndexStays(s[1..], x, y);
    }
  }

  lemma {:induction false} FirstIndexOfNew(s: seq<string>, x: string)
    requires x !in s
    ensures FirstIndex(s + [x], x) == |s|
  {
    if s != [] {
      assert (s + [x])[1..] == s[1..] + [x];
      FirstIndexOfNew(s[1..], x);
    }
  }

  /** One more element, which `d` takes if it is new. */
  lemma OneMoreInOrder(s: seq<string>, d: seq<string>, x: string)
    requires IsDistinctInOrder(s, d)
    ensures IsDistinctInOrder(s + [x], if x in d then d else d + [x])
  {
    var e := if x in d then d else d + [x];
    forall i, j | 0 <= i < j < |e|
      ensures FirstBefore(s + [x], e[i], e[j])
    {
      assert e[i] == d[i] && d[i] in d;
      FirstIndexStays(s, d[i], x);
      if j < |d| {
        assert FirstBefore(s, d[i], d[j]);
        FirstIndexStays(s, d[j], x);
      } else {
        FirstIndexOfNew(s, x);
      }
    }
  }

  function NonEmpty(s: seq<string>): seq<string> {
    if s == [] then []
    else if s[0] == "" then NonEmpty(s[1..])
    else [s[0]] + NonEmpty(s[1..])
  }

  lemma {:induction false} NonEmptyConcat(a: seq<string>, b: seq<string>)
    ensures NonEmpty(a + b) == NonEmpty(a) + NonEmpty(b)
  {
    if a == [] {
      assert a + b == b;
    } else {
      assert (a + b)[1..] == a[1..] + b && (a + b)[0] == a[0];
      NonEmptyConcat(a[1..], b);
    }
  }

  lemma {:induction false} NonEmptyOfAll(s: seq<string>)
    requires forall i | 0 <= i < |s| :: s[i] != ""
    ensures NonEmpty(s) == s
  {
    if s != [] {
      NonEmptyOfAll(s[1..]);
    }
  }
}
