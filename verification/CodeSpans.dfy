/** Inline code spans of Markdown (section 6.1 of CommonMark 0.31.2): each backtick string pairs with
  the next backtick string of equal length. The documentation check finds them in one pass over the runs. */
module CodeSpans {
  import opened Wrappers

  datatype Run = Run(start: nat, end: nat) {
    function Width(): int {
      end - start
    }
  }

  datatype Span = Span(start: nat, end: nat)

  /** The run with index `open` pairs with the run with index `close`. */
  datatype Pair = Pair(open: nat, close: nat)

  // ----- Runs

  function RunEnd(text: string, i: nat): (end: nat)
    requires i <= |text|
    ensures i <= end <= |text|
    ensures forall x | i <= x < end :: text[x] == '`'
    ensures end < |text| ==> text[end] != '`'
    decreases |text| - i
  {
    if i < |text| && text[i] == '`' then RunEnd(text, i + 1) else i
  }

  function RunsFrom(text: string, i: nat): seq<Run>
    requires i <= |text|
    decreases |text| - i
  {
    if i == |text| then []
    else if text[i] == '`' then [Run(i, RunEnd(text, i))] + RunsFrom(text, RunEnd(text, i))
    else RunsFrom(text, i + 1)
  }

  /** The runs are the maximal backtick strings, in order, and every backtick is in one of them. */
  ghost predicate AreRuns(text: string, from: nat, runs: seq<Run>) {
    && (forall k {:trigger IsRun(text, from, runs[k])} | 0 <= k < |runs| :: IsRun(text, from, runs[k]))
    && (forall k, l {:trigger EndsBefore(runs[k], runs[l])} | 0 <= k < l < |runs| :: EndsBefore(runs[k], runs[l]))
    && (forall x | from <= x < |text| && text[x] == '`' :: IsInRun(runs, x))
  }

  ghost predicate IsInRun(runs: seq<Run>, x: nat) {
    exists k | 0 <= k < |runs| :: runs[k].start <= x < runs[k].end
  }

  ghost predicate EndsBefore(r: Run, s: Run) {
    r.end < s.start
  }

  ghost predicate IsRun(text: string, from: nat, r: Run) {
    && from <= r.start < r.end <= |text|
    && (forall x | r.start <= x < r.end :: text[x] == '`')
    && (r.start > from ==> text[r.start - 1] != '`')
    && (r.end < |text| ==> text[r.end] != '`')
  }

  lemma RunsConsed(text: string, i: nat, rest: seq<Run>)
    requires i < |text| && text[i] == '`'
    requires AreRuns(text, RunEnd(text, i), rest)
    ensures AreRuns(text, i, [Run(i, RunEnd(text, i))] + rest)
  {
    var end := RunEnd(text, i);
    var runs := [Run(i, end)] + rest;
    assert IsRun(text, i, runs[0]);
    forall k | 0 < k < |runs|
      ensures IsRun(text, i, runs[k]) && end < runs[k].start
    {
      assert IsRun(text, end, rest[k - 1]);
      assert text[rest[k - 1].start] == '`';
    }
    forall k, l | 0 <= k < l < |runs|
      ensures EndsBefore(runs[k], runs[l])
    {
      assert k > 0 ==> EndsBefore(rest[k - 1], rest[l - 1]);
    }
    forall x | i <= x < |text| && text[x] == '`'
      ensures IsInRun(runs, x)
    {
      if x < end {
        assert runs[0].start <= x < runs[0].end;
      } else {
        assert IsInRun(rest, x);
        var k :| 0 <= k < |rest| && rest[k].start <= x < rest[k].end;
        assert runs[k + 1] == rest[k];
      }
    }
  }

  lemma RunsSkipped(text: string, i: nat, runs: seq<Run>)
    requires i < |text| && text[i] != '`'
    requires AreRuns(text, i + 1, runs)
    ensures AreRuns(text, i, runs)
  {
    forall k | 0 <= k < |runs|
      ensures IsRun(text, i, runs[k])
    {
      assert IsRun(text, i + 1, runs[k]);
    }
  }

  lemma {:induction false} RunsAreMaximal(text: string, i: nat)
    requires i <= |text|
    ensures AreRuns(text, i, RunsFrom(text, i))
    decreases |text| - i
  {
    if i < |text| {
      if text[i] == '`' {
        RunsAreMaximal(text, RunEnd(text, i));
        RunsConsed(text, i, RunsFrom(text, RunEnd(text, i)));
      } else {
        RunsAreMaximal(text, i + 1);
        RunsSkipped(text, i, RunsFrom(text, i + 1));
      }
    }
  }

  // ----- Pairing by naive search

  function NextSameWidth(runs: seq<Run>, width: int, j: nat): (r: Option<nat>)
    ensures r.Some? ==> j <= r.value < |runs|
    decreases |runs| - j
  {
    if j >= |runs| then None
    else if runs[j].Width() == width then Some(j)
    else NextSameWidth(runs, width, j + 1)
  }

  function Closer(runs: seq<Run>, i: nat): Option<nat>
    requires i < |runs|
  {
    NextSameWidth(runs, runs[i].Width(), i + 1)
  }

  function PairsFrom(runs: seq<Run>, i: nat): seq<Pair>
    decreases |runs| - i
  {
    if i >= |runs| then []
    else
      match Closer(runs, i)
      case None => PairsFrom(runs, i + 1)
      case Some(j) => [Pair(i, j)] + PairsFrom(runs, j + 1)
  }

  function SpanOf(runs: seq<Run>, p: Pair): Span
    requires p.open < |runs| && p.close < |runs|
  {
    Span(runs[p.open].start, runs[p.close].end)
  }

  /** As many backticks in the one run as in the other. */
  predicate SameLength(r: Run, s: Run) {
    r.end - r.start == s.end - s.start
  }

  /** The run with index `j` is the first after `i` that is as long. */
  predicate IsNextSame(runs: seq<Run>, i: nat, j: nat) {
    && i < j < |runs| && SameLength(runs[i], runs[j])
    && forall m | i < m < j :: !SameLength(runs[i], runs[m])
  }

  /** No run after `i` is as long. */
  predicate IsLastOfLength(runs: seq<Run>, i: nat) {
    i < |runs| && forall m | i < m < |runs| :: !SameLength(runs[i], runs[m])
  }

  lemma {:induction false} SearchedIsNext(runs: seq<Run>, i: nat, j: nat)
    requires i < j <= |runs| && forall m | i < m < j :: !SameLength(runs[i], runs[m])
    ensures
      var r := NextSameWidth(runs, runs[i].Width(), j);
      if r.Some? then IsNextSame(runs, i, r.value) else IsLastOfLength(runs, i)
    decreases |runs| - j
  {
    if j < |runs| && runs[j].Width() != runs[i].Width() {
      SearchedIsNext(runs, i, j + 1);
    }
  }

  /** The search finds the next run that is as long, and nothing only when there is none. */
  lemma CloserIsNext(runs: seq<Run>, i: nat)
    requires i < |runs|
    ensures Closer(runs, i).None? <==> IsLastOfLength(runs, i)
    ensures forall j: nat :: Closer(runs, i) == Some(j) <==> IsNextSame(runs, i, j)
  {
    SearchedIsNext(runs, i, i + 1);
  }

  /** What a pairing is, without saying how to find it: pairs in order that do not overlap, each of two runs
    of equal length with none of this length between them, and no run outside the pairs has a later run of
    its length. */
  ghost predicate IsPairing(runs: seq<Run>, from: nat, pairs: seq<Pair>) {
    && (forall k {:trigger IsPair(runs, from, pairs[k])} | 0 <= k < |pairs| :: IsPair(runs, from, pairs[k]))
    && InOrder(pairs)
    && (forall r {:trigger IsPaired(pairs, r)} | from <= r < |runs| && !IsPaired(pairs, r) ::
          IsLastOfLength(runs, r))
  }

  ghost predicate Precedes(p: Pair, q: Pair) {
    p.close < q.open
  }

  ghost predicate InOrder(pairs: seq<Pair>) {
    forall k, l {:trigger Precedes(pairs[k], pairs[l])} | 0 <= k < l < |pairs| :: Precedes(pairs[k], pairs[l])
  }

  ghost predicate IsPair(runs: seq<Run>, from: nat, p: Pair) {
    from <= p.open && IsNextSame(runs, p.open, p.close)
  }

  ghost predicate IsPaired(pairs: seq<Pair>, r: nat) {
    exists k | 0 <= k < |pairs| :: pairs[k].open <= r <= pairs[k].close
  }

  lemma PairedConsed(p: Pair, rest: seq<Pair>, r: nat)
    requires !IsPaired([p] + rest, r)
    ensures !(p.open <= r <= p.close) && !IsPaired(rest, r)
  {
    var pairs := [p] + rest;
    assert pairs[0] == p;
    assert forall k | 0 <= k < |rest| :: rest[k] == pairs[k + 1];
  }

  lemma PairingConsed(runs: seq<Run>, i: nat, j: nat, rest: seq<Pair>)
    requires IsNextSame(runs, i, j) && IsPairing(runs, j + 1, rest)
    ensures IsPairing(runs, i, [Pair(i, j)] + rest)
  {
    var pairs := [Pair(i, j)] + rest;
    forall k | 0 <= k < |rest|
      ensures IsPair(runs, i, rest[k]) && j < rest[k].open
    {
      assert IsPair(runs, j + 1, rest[k]);
    }
    OrderConsed(Pair(i, j), rest);
    forall r | i <= r < |runs| && !IsPaired(pairs, r)
      ensures IsLastOfLength(runs, r)
    {
      PairedConsed(Pair(i, j), rest, r);
    }
  }

  lemma OrderConsed(p: Pair, rest: seq<Pair>)
    requires forall k | 0 <= k < |rest| :: p.close < rest[k].open
    requires InOrder(rest)
    ensures InOrder([p] + rest)
  {
    var pairs := [p] + rest;
    forall k, l | 0 <= k < l < |pairs|
      ensures Precedes(pairs[k], pairs[l])
    {
      assert k > 0 ==> Precedes(rest[k - 1], rest[l - 1]);
    }
  }

  lemma OrderOfTail(pairs: seq<Pair>)
    requires InOrder(pairs) && pairs != []
    ensures InOrder(pairs[1..])
  {
    var rest := pairs[1..];
    forall k, l | 0 <= k < l < |rest|
      ensures Precedes(rest[k], rest[l])
    {
      assert Precedes(pairs[k + 1], pairs[l + 1]);
    }
  }

  lemma PairingSkipped(runs: seq<Run>, i: nat, pairs: seq<Pair>)
    requires IsLastOfLength(runs, i) && IsPairing(runs, i + 1, pairs)
    ensures IsPairing(runs, i, pairs)
  {
    forall k | 0 <= k < |pairs|
      ensures IsPair(runs, i, pairs[k])
    {
      assert IsPair(runs, i + 1, pairs[k]);
    }
  }

  lemma PairedInTail(pairs: seq<Pair>, r: nat)
    requires IsPaired(pairs, r) && pairs != [] && r > pairs[0].close
    ensures IsPaired(pairs[1..], r)
  {
    var k :| 0 <= k < |pairs| && pairs[k].open <= r <= pairs[k].close;
    assert pairs[1..][k - 1] == pairs[k];
  }

  lemma PairingTail(runs: seq<Run>, i: nat, pairs: seq<Pair>)
    requires IsPairing(runs, i, pairs) && pairs != [] && pairs[0].open == i
    ensures IsPair(runs, i, pairs[0])
    ensures IsPairing(runs, pairs[0].close + 1, pairs[1..])
  {
    var rest, next := pairs[1..], pairs[0].close + 1;
    assert IsPair(runs, i, pairs[0]);
    forall k | 0 <= k < |rest|
      ensures IsPair(runs, next, rest[k])
    {
      assert IsPair(runs, i, pairs[k + 1]) && Precedes(pairs[0], pairs[k + 1]);
    }
    OrderOfTail(pairs);
    forall r | next <= r < |runs| && !IsPaired(rest, r)
      ensures IsLastOfLength(runs, r)
    {
      if IsPaired(pairs, r) {
        PairedInTail(pairs, r);
      }
    }
  }

  /** A run that opens no pair has no later run of its length. */
  lemma PairingFromNext(runs: seq<Run>, i: nat, pairs: seq<Pair>)
    requires IsPairing(runs, i, pairs) && i < |runs| && (pairs == [] || pairs[0].open != i)
    ensures IsLastOfLength(runs, i) && IsPairing(runs, i + 1, pairs)
  {
    forall k | 0 <= k < |pairs|
      ensures IsPair(runs, i + 1, pairs[k])
    {
      assert IsPair(runs, i, pairs[0]) && IsPair(runs, i, pairs[k]);
      assert k == 0 || Precedes(pairs[0], pairs[k]);
    }
    assert !IsPaired(pairs, i) by {
      assert forall k | 0 <= k < |pairs| :: IsPair(runs, i + 1, pairs[k]);
    }
  }

  lemma {:induction false} SearchPairs(runs: seq<Run>, i: nat)
    ensures IsPairing(runs, i, PairsFrom(runs, i))
    decreases |runs| - i
  {
    if i < |runs| {
      CloserIsNext(runs, i);
      match Closer(runs, i)
      case None =>
        SearchPairs(runs, i + 1);
        PairingSkipped(runs, i, PairsFrom(runs, i + 1));
      case Some(j) =>
        SearchPairs(runs, j + 1);
        PairingConsed(runs, i, j, PairsFrom(runs, j + 1));
    }
  }

  /** There is only one pairing, so the naive search finds the one that the section describes. */
  lemma {:induction false} PairingIsUnique(runs: seq<Run>, i: nat, pairs: seq<Pair>)
    requires IsPairing(runs, i, pairs)
    ensures pairs == PairsFrom(runs, i)
    decreases |runs| - i
  {
    if i >= |runs| {
      assert |pairs| > 0 ==> !IsPair(runs, i, pairs[0]);
    } else if pairs != [] && pairs[0].open == i {
      PairingTail(runs, i, pairs);
      CloserIsNext(runs, i);
      var j := pairs[0].close;
      PairingIsUnique(runs, j + 1, pairs[1..]);
      calc {
        pairs;
        [Pair(i, j)] + pairs[1..];
        [Pair(i, j)] + PairsFrom(runs, j + 1);
        PairsFrom(runs, i);
      }
    } else {
      PairingFromNext(runs, i, pairs);
      CloserIsNext(runs, i);
      PairingIsUnique(runs, i + 1, pairs);
    }
  }

  // ----- Spans of a text

  function SpansFrom(runs: seq<Run>, i: nat): seq<Span>
    decreases |runs| - i
  {
    if i >= |runs| then []
    else
      match Closer(runs, i)
      case None => SpansFrom(runs, i + 1)
      case Some(j) => [Span(runs[i].start, runs[j].end)] + SpansFrom(runs, j + 1)
  }

  ghost predicate Matches(runs: seq<Run>, spans: seq<Span>, pairs: seq<Pair>, k: nat) {
    && k < |spans| && k < |pairs|
    && pairs[k].open < |runs| && pairs[k].close < |runs|
    && spans[k] == SpanOf(runs, pairs[k])
  }

  lemma MatchesConsed(runs: seq<Run>, i: nat, j: nat, k: nat)
    requires i < |runs| && Closer(runs, i) == Some(j)
    requires k > 0 ==> Matches(runs, SpansFrom(runs, j + 1), PairsFrom(runs, j + 1), k - 1)
    ensures Matches(runs, SpansFrom(runs, i), PairsFrom(runs, i), k)
  {
    assert SpansFrom(runs, i) == [SpanOf(runs, Pair(i, j))] + SpansFrom(runs, j + 1);
    assert PairsFrom(runs, i) == [Pair(i, j)] + PairsFrom(runs, j + 1);
  }

  /** A span runs from the start of its opener to the end of its closer. */
  lemma {:induction false} SpansArePairs(runs: seq<Run>, i: nat, k: nat)
    requires k < |SpansFrom(runs, i)| || k < |PairsFrom(runs, i)|
    ensures Matches(runs, SpansFrom(runs, i), PairsFrom(runs, i), k)
    decreases |runs| - i
  {
    if i < |runs| {
      match Closer(runs, i)
      case None => SpansArePairs(runs, i + 1, k);
      case Some(j) =>
        if k > 0 {
          SpansArePairs(runs, j + 1, k - 1);
        }
        MatchesConsed(runs, i, j, k);
    }
  }

  /** The spans of a text by the naive search. */
  function InlineCode(text: string): seq<Span> {
    SpansFrom(RunsFrom(text, 0), 0)
  }

  ghost predicate IsCodeSpan(text: string, s: Span) {
    && s.start < s.end <= |text|
    && text[s.start] == '`' && text[s.end - 1] == '`'
    && (s.start > 0 ==> text[s.start - 1] != '`') && (s.end < |text| ==> text[s.end] != '`')
  }

  lemma SpanIsCode(text: string, k: nat)
    requires k < |InlineCode(text)|
    ensures IsCodeSpan(text, InlineCode(text)[k])
  {
    var runs := RunsFrom(text, 0);
    RunsAreMaximal(text, 0);
    SearchPairs(runs, 0);
    SpansArePairs(runs, 0, k);
    var p := PairsFrom(runs, 0)[k];
    assert IsPair(runs, 0, p);
    assert IsRun(text, 0, runs[p.open]) && IsRun(text, 0, runs[p.close]);
    assert EndsBefore(runs[p.open], runs[p.close]);
  }

  lemma SpanEndsBefore(text: string, k: nat, l: nat)
    requires k < l < |InlineCode(text)|
    ensures InlineCode(text)[k].end < InlineCode(text)[l].start
  {
    var runs := RunsFrom(text, 0);
    RunsAreMaximal(text, 0);
    SearchPairs(runs, 0);
    SpansArePairs(runs, 0, k);
    SpansArePairs(runs, 0, l);
    var p, q := PairsFrom(runs, 0)[k], PairsFrom(runs, 0)[l];
    assert Precedes(p, q) && EndsBefore(runs[p.close], runs[q.open]);
  }

  /** Spans lie in the text, one after the other, and start and end with a whole backtick run. */
  lemma SpansAreDisjoint(text: string)
    ensures
      var spans := InlineCode(text);
      && (forall k | 0 <= k < |spans| :: IsCodeSpan(text, spans[k]))
      && (forall k, l | 0 <= k < l < |spans| :: spans[k].end < spans[l].start)
  {
    forall k | 0 <= k < |InlineCode(text)|
      ensures IsCodeSpan(text, InlineCode(text)[k])
    {
      SpanIsCode(text, k);
    }
    forall k, l | 0 <= k < l < |InlineCode(text)|
      ensures InlineCode(text)[k].end < InlineCode(text)[l].start
    {
      SpanEndsBefore(text, k, l);
    }
  }

  // ----- The linear pairing

  method FindRuns(text: string) returns (runs: seq<Run>)
    ensures runs == RunsFrom(text, 0)
  {
    runs := [];
    var i := 0;
    while i < |text|
      invariant i <= |text|
      invariant runs + RunsFrom(text, i) == RunsFrom(text, 0)
    {
      if text[i] == '`' {
        var end := i + 1;
        while end < |text| && text[end] == '`'
          invariant i < end <= |text|
          invariant RunEnd(text, i) == RunEnd(text, end)
        {
          end := end + 1;
        }
        runs := runs + [Run(i, end)];
        i := end;
      } else {
        i := i + 1;
      }
    }
  }

  /** The reverse pass: the latest run of each width seen so far is the next one of that width. */
  method NextRuns(runs: seq<Run>) returns (next: array<Option<nat>>)
    ensures fresh(next) && next.Length == |runs|
    ensures forall i | 0 <= i < |runs| :: next[i] == Closer(runs, i)
  {
    next := new Option<nat>[|runs|](_ => None);
    var latest: map<int, nat> := map[];
    var index := |runs|;
    while index > 0
      invariant 0 <= index <= |runs|
      invariant forall w :: NextSameWidth(runs, w, index) == if w in latest then Some(latest[w]) else None
      invariant forall i | index <= i < |runs| :: next[i] == Closer(runs, i)
    {
      index := index - 1;
      var width := runs[index].Width();
      next[index] := if width in latest then Some(latest[width]) else None;
      latest := latest[width := index];
    }
  }

  method InlineCodeSpans(text: string) returns (spans: seq<Span>)
    ensures spans == InlineCode(text)
  {
    var runs := FindRuns(text);
    var next := NextRuns(runs);
    spans := [];
    var index := 0;
    while index < |runs|
      invariant spans + SpansFrom(runs, index) == SpansFrom(runs, 0)
      decreases |runs| - index
    {
      var closer := next[index];
      if closer.None? {
        index := index + 1;
      } else {
        spans := spans + [Span(runs[index].start, runs[closer.value].end)];
        index := closer.value + 1;
      }
    }
  }

  // ----- Masking

  predicate InSpan(spans: seq<Span>, x: int) {
    exists k | 0 <= k < |spans| :: spans[k].start <= x < spans[k].end
  }

  /** `mask_span`: blank out a stretch in place, newlines excepted. */
  method MaskSpan(masked: array<char>, start: nat, end: nat)
    requires start <= end <= masked.Length
    modifies masked
    ensures forall x | 0 <= x < masked.Length ::
      masked[x] == if start <= x < end && old(masked[x]) != '\n' then ' ' else old(masked[x])
  {
    for idx := start to end
      invariant forall x | 0 <= x < masked.Length ::
        masked[x] == if start <= x < idx && old(masked[x]) != '\n' then ' ' else old(masked[x])
    {
      if masked[idx] != '\n' {
        masked[idx] := ' ';
      }
    }
  }

  /** The code-span step of `mask_markdown`: exactly the characters of the spans become blanks, and
    every line keeps its length. */
  method MaskInlineCode(masked: array<char>)
    modifies masked
    ensures
      var spans := InlineCode(old(masked[..]));
      forall x | 0 <= x < masked.Length ::
        masked[x] == if InSpan(spans, x) && old(masked[x]) != '\n' then ' ' else old(masked[x])
    ensures forall x | 0 <= x < masked.Length :: masked[x] == '\n' <==> old(masked[x]) == '\n'
  {
    var spans := InlineCodeSpans(masked[..]);
    SpansAreDisjoint(masked[..]);
    for k := 0 to |spans|
      invariant forall x | 0 <= x < masked.Length ::
        masked[x] == if InSpan(spans[..k], x) && old(masked[x]) != '\n' then ' ' else old(masked[x])
    {
      MaskSpan(masked, spans[k].start, spans[k].end);
      assert forall x :: InSpan(spans[..k + 1], x) <==> InSpan(spans[..k], x) || spans[k].start <= x < spans[k].end by {
        InSpanGrows(spans, k);
      }
    }
    assert spans[..|spans|] == spans;
  }

  lemma InSpanGrows(spans: seq<Span>, k: nat)
    requires k < |spans|
    ensures forall x :: InSpan(spans[..k + 1], x) <==> InSpan(spans[..k], x) || spans[k].start <= x < spans[k].end
  {
    forall x
      ensures InSpan(spans[..k + 1], x) <==> InSpan(spans[..k], x) || spans[k].start <= x < spans[k].end
    {
      var more, less := spans[..k + 1], spans[..k];
      assert more[k] == spans[k];
      assert forall n | 0 <= n < k :: more[n] == less[n];
    }
  }
}
