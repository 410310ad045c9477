/** `_iter_json_objects`: collect the JSON objects of a text with the bounded, remembering scanner.

  `Loop` is the run as the code does it. `PlainLoop` is the same walk with no memory, no work
  counter and no limit. The decoder is any function from a start index to its outcome. */
module JsonObjects {
  import opened JsonText
  import opened JsonScanner
  import opened Wrappers

  /** What `raw_decode` does at an index: raise, or return a value and the index after it. */
  datatype Decoded<+T> = Malformed | Dict(payload: T, end: int) | OtherValue

  /** One accepted object, and where the walk resumes after it. */
  datatype Found<+T> = Found(payload: T, start: nat, end: int, resume: nat)

  datatype Outcome<+T> = Outcome(found: seq<Found<T>>, memory: Memory, tested: nat)

  /** The outcome of a run that remembers nothing. */
  datatype Plain<+T> = Plain(found: seq<Found<T>>, tested: nat)

  function Max(a: int, b: int): int {
    if a >= b then a else b
  }

  // ----- Bounded retries inside an object that did not decode

  datatype Tracker = Tracker(maxFailures: int, enclosingEnd: int, failures: int) {
    function Reset(): Tracker {
      Tracker(maxFailures, -1, 0)
    }

    /** The tracker after a failure, and the index to resume at. */
    function RecordFailure(start: nat, end: int): (Tracker, int) {
      if enclosingEnd != -1 && end <= enclosingEnd then
        if failures + 1 >= maxFailures then (Reset(), enclosingEnd + 1)
        else (Tracker(maxFailures, enclosingEnd, failures + 1), start + 1)
      else (Tracker(maxFailures, end, 1), start + 1)
    }

    /** Nothing is counted, or an enclosing failed object is known and fewer failures than the
      budget are counted against it. A budget below two acts as two. */
    predicate Valid() {
      || (enclosingEnd == -1 && failures == 0)
      || (enclosingEnd >= 0 && 1 <= failures < Max(maxFailures, 2))
    }
  }

  datatype Failure = Failure(start: nat, end: nat)

  function AfterFailures(tracker: Tracker, fs: seq<Failure>): Tracker {
    if fs == [] then tracker
    else
      var before := AfterFailures(tracker, fs[..|fs| - 1]);
      before.RecordFailure(fs[|fs| - 1].start, fs[|fs| - 1].end).0
  }

  lemma {:induction false} FailuresStayBounded(tracker: Tracker, fs: seq<Failure>)
    requires tracker.Valid()
    ensures AfterFailures(tracker, fs).Valid()
  {
    if fs != [] {
      FailuresStayBounded(tracker, fs[..|fs| - 1]);
    }
  }

  /** The failure of an object outside the known one, then failures nested in it: each resumes one
    past its own start, and exactly the last of the budget resumes one past the enclosing object,
    with nothing counted any more. */
  lemma {:induction false} NestedFailuresJumpOut(tracker: Tracker, fs: seq<Failure>)
    requires tracker.enclosingEnd == -1 || (fs != [] && fs[0].end > tracker.enclosingEnd)
    requires 1 <= |fs| <= Max(tracker.maxFailures, 2)
    requires forall i | 0 < i < |fs| :: fs[i].end <= fs[0].end
    ensures
      var last := fs[|fs| - 1];
      var before := AfterFailures(tracker, fs[..|fs| - 1]);
      if |fs| == Max(tracker.maxFailures, 2)
        then before.RecordFailure(last.start, last.end) == (tracker.Reset(), fs[0].end + 1)
        else before.RecordFailure(last.start, last.end)
               == (Tracker(tracker.maxFailures, fs[0].end, |fs|), last.start + 1)
  {
    if |fs| > 1 {
      NestedFailuresJumpOut(tracker, fs[..|fs| - 1]);
    }
  }

  class NestedFailureTracker {
    const maxFailures: int
    var enclosingFailedEnd: int
    var failures: int

    constructor (maxFailures: int)
      ensures Contents() == Tracker(maxFailures, -1, 0)
    {
      this.maxFailures := maxFailures;
      enclosingFailedEnd, failures := -1, 0;
    }

    function Contents(): Tracker
      reads this
    {
      Tracker(maxFailures, enclosingFailedEnd, failures)
    }

    method Reset()
      modifies this
      ensures Contents() == old(Contents()).Reset()
    {
      enclosingFailedEnd, failures := -1, 0;
    }

    method RecordFailure(start: nat, end: int) returns (resume: int)
      modifies this
      ensures (Contents(), resume) == old(Contents()).RecordFailure(start, end)
    {
      if enclosingFailedEnd != -1 && end <= enclosingFailedEnd {
        failures := failures + 1;
        if failures >= maxFailures {
          resume := enclosingFailedEnd + 1;
          Reset();
          return;
        }
      } else {
        enclosingFailedEnd := end;
        failures := 1;
      }
      return start + 1;
    }
  }

  // ----- The walk

  /** What one search leads to: the tracker after it, where the walk resumes, and what it accepted. */
  datatype Next<+T> = Next(tracker: Tracker, resume: nat, found: seq<Found<T>>, tested: nat)

  function Continue<T>(decode: nat -> Decoded<T>, tracker: Tracker, start: nat, end: int): (n: Next<T>)
    requires end == NOT_FOUND || start < end
    ensures start < n.resume
    ensures forall f | f in n.found :: f.start == start && f.resume == n.resume == Max(f.end, end + 1)
    ensures |n.found| <= 1 && (n.found != [] ==> end != NOT_FOUND)
  {
    if end == NOT_FOUND then Next(tracker, start + 1, [], 0)
    else
      match decode(start)
      case Malformed =>
        var (tracker', resume) := tracker.RecordFailure(start, end);
        Next(tracker', resume, [], 1)
      case Dict(payload, decodedEnd) =>
        var resume := Max(decodedEnd, end + 1);
        Next(tracker.Reset(), resume, [Found(payload, start, decodedEnd, resume)], 1)
      case OtherValue => Next(tracker, start + 1, [], 1)
  }

  function Loop<T>(text: string, decode: nat -> Decoded<T>, limit: int, memory: Memory,
                   tracker: Tracker, i: nat): (r: Outcome<T>)
    requires Agrees(text, memory)
    decreases |text| - i
  {
    var start := NextBrace(text, i);
    if start == NOT_FOUND || memory.work >= limit then Outcome([], memory, 0)
    else
      FindAgrees(text, limit, memory, start);
      var (end, after) := Find(text, limit, memory, start);
      var n := Continue(decode, tracker, start, end);
      var r := Loop(text, decode, limit, after, n.tracker, n.resume);
      Outcome(n.found + r.found, r.memory, n.tested + r.tested)
  }

  function PlainLoop<T>(text: string, decode: nat -> Decoded<T>, tracker: Tracker, i: nat): Plain<T>
    decreases |text| - i
  {
    var start := NextBrace(text, i);
    if start == NOT_FOUND then Plain([], 0)
    else
      var n := Continue(decode, tracker, start, PlainEnd(text, start));
      var r := PlainLoop(text, decode, n.tracker, n.resume);
      Plain(n.found + r.found, n.tested + r.tested)
  }

  /** Once the limit is reached the walk accepts nothing more. */
  lemma ExhaustedLoopStops<T>(text: string, decode: nat -> Decoded<T>, limit: int, memory: Memory,
                              tracker: Tracker, i: nat)
    requires Agrees(text, memory) && memory.work >= limit
    ensures Loop(text, decode, limit, memory, tracker, i) == Outcome([], memory, 0)
  {
  }

  /** A run that can have been cut off at the limit, and the plain one. */
  ghost predicate IsPrefixOf<T>(r: Outcome<T>, limit: int, plain: Plain<T>) {
    && r.found <= plain.found
    && (r.memory.work < limit ==> (r.found, r.tested) == (plain.found, plain.tested))
  }

  lemma PrefixExtends<T>(n: Next<T>, r: Outcome<T>, limit: int, plain: Plain<T>)
    requires IsPrefixOf(r, limit, plain)
    ensures IsPrefixOf(Outcome(n.found + r.found, r.memory, n.tested + r.tested), limit,
                       Plain(n.found + plain.found, n.tested + plain.tested))
  {
  }

  /** Under any limit the remembering run returns a prefix of the plain one, and when the limit is not
    reached, all of it, with as many candidates tested. */
  lemma {:induction false} LoopIsPrefixOfPlain<T>(text: string, decode: nat -> Decoded<T>, limit: int,
                                                  memory: Memory, tracker: Tracker, i: nat)
    requires Agrees(text, memory)
    ensures IsPrefixOf(Loop(text, decode, limit, memory, tracker, i), limit, PlainLoop(text, decode, tracker, i))
    decreases |text| - i
  {
    var start := NextBrace(text, i);
    if memory.work < limit && start != NOT_FOUND {
      FindAgrees(text, limit, memory, start);
      FindCost(text, limit, memory, start);
      var (end, after) := Find(text, limit, memory, start);
      var n := Continue(decode, tracker, start, end);
      if after.work < limit {
        LoopIsPrefixOfPlain(text, decode, limit, after, n.tracker, n.resume);
        PrefixExtends(n, Loop(text, decode, limit, after, n.tracker, n.resume), limit,
                      PlainLoop(text, decode, n.tracker, n.resume));
      } else {
        ExhaustedLoopStops(text, decode, limit, after, n.tracker, n.resume);
      }
    }
  }

  /** Raising the limit only extends the result. */
  lemma {:induction false} HigherLimitExtends<T>(text: string, decode: nat -> Decoded<T>, limit: int, higher: int,
                                                 memory: Memory, tracker: Tracker, i: nat)
    requires Agrees(text, memory) && limit <= higher
    ensures Loop(text, decode, limit, memory, tracker, i).found
         <= Loop(text, decode, higher, memory, tracker, i).found
    decreases |text| - i
  {
    var start := NextBrace(text, i);
    if memory.work < limit && start != NOT_FOUND {
      FindAgrees(text, limit, memory, start);
      FindCost(text, limit, memory, start);
      var (end, after) := Find(text, limit, memory, start);
      var n := Continue(decode, tracker, start, end);
      if after.work < limit {
        FindIgnoresHigherLimit(text, limit, higher, memory, start);
        HigherLimitExtends(text, decode, limit, higher, after, n.tracker, n.resume);
      } else {
        ExhaustedLoopStops(text, decode, limit, after, n.tracker, n.resume);
      }
    }
  }

  /** The charged work never passes the limit, unless it started there. */
  lemma {:induction false} WorkStaysBounded<T>(text: string, decode: nat -> Decoded<T>, limit: int,
                                               memory: Memory, tracker: Tracker, i: nat)
    requires Agrees(text, memory)
    ensures memory.work <= Loop(text, decode, limit, memory, tracker, i).memory.work <= Max(memory.work, limit)
    decreases |text| - i
  {
    var start := NextBrace(text, i);
    if memory.work < limit && start != NOT_FOUND {
      FindAgrees(text, limit, memory, start);
      FindCost(text, limit, memory, start);
      var (end, after) := Find(text, limit, memory, start);
      var n := Continue(decode, tracker, start, end);
      WorkStaysBounded(text, decode, limit, after, n.tracker, n.resume);
    }
  }

  /** Accepted objects stand one after the other: each starts on a brace at or after `i`, covers its
    braces and its decoded text, and ends before the next one starts. */
  ghost predicate InOrder<T>(text: string, found: seq<Found<T>>, i: nat) {
    && (forall a | 0 <= a < |found| :: Spans(text, found[a], i))
    && (forall a, b | 0 <= a < b < |found| :: found[a].resume <= found[b].start)
  }

  ghost predicate Spans<T>(text: string, f: Found<T>, i: nat) {
    && i <= f.start
    && IsOpenBrace(text, f.start)
    && PlainEnd(text, f.start) != NOT_FOUND
    && f.resume == Max(f.end, PlainEnd(text, f.start) + 1)
  }

  lemma OrderFromEarlier<T>(text: string, found: seq<Found<T>>, from: nat, i: nat)
    requires InOrder(text, found, from) && i <= from
    ensures InOrder(text, found, i)
  {
    forall a | 0 <= a < |found|
      ensures Spans(text, found[a], i)
    {
      assert Spans(text, found[a], from);
    }
  }

  lemma OrderConsed<T>(text: string, first: Found<T>, rest: seq<Found<T>>, i: nat)
    requires Spans(text, first, i) && first.start < first.resume && InOrder(text, rest, first.resume)
    ensures InOrder(text, [first] + rest, i)
  {
    OrderFromEarlier(text, rest, first.resume, i);
    var found := [first] + rest;
    forall a, b | 0 <= a < b < |found|
      ensures found[a].resume <= found[b].start
    {
      assert Spans(text, rest[b - 1], first.resume);
    }
  }

  lemma {:induction false} FoundInOrder<T>(text: string, decode: nat -> Decoded<T>, tracker: Tracker, i: nat)
    ensures InOrder(text, PlainLoop(text, decode, tracker, i).found, i)
    decreases |text| - i
  {
    var start := NextBrace(text, i);
    if start != NOT_FOUND {
      var n := Continue(decode, tracker, start, PlainEnd(text, start));
      var rest := PlainLoop(text, decode, n.tracker, n.resume).found;
      FoundInOrder(text, decode, n.tracker, n.resume);
      if n.found == [] {
        OrderFromEarlier(text, rest, n.resume, i);
      } else {
        assert n.found == [n.found[0]] && n.found[0] in n.found;
        OrderConsed(text, n.found[0], rest, i);
      }
    }
  }

  /** The same for the bounded run: spans strictly increase and are pairwise disjoint. */
  lemma LoopFoundInOrder<T>(text: string, decode: nat -> Decoded<T>, limit: int, memory: Memory,
                            tracker: Tracker, i: nat)
    requires Agrees(text, memory)
    ensures InOrder(text, Loop(text, decode, limit, memory, tracker, i).found, i)
  {
    LoopIsPrefixOfPlain(text, decode, limit, memory, tracker, i);
    FoundInOrder(text, decode, tracker, i);
  }

  // ----- The loop in place

  function Payloads<T>(found: seq<Found<T>>): seq<T> {
    seq(|found|, n requires 0 <= n < |found| => found[n].payload)
  }

  /** A run that has accepted `found` and tested `tested` candidates still owes `rest`. */
  ghost predicate Owes<T>(whole: Outcome<T>, found: seq<Found<T>>, tested: int, rest: Outcome<T>) {
    && whole.found == found + rest.found
    && whole.memory == rest.memory
    && whole.tested == tested + rest.tested
  }

  lemma OneStepOfLoop<T>(text: string, decode: nat -> Decoded<T>, limit: int, memory: Memory, tracker: Tracker,
                         i: nat, whole: Outcome<T>, found: seq<Found<T>>, tested: int)
    requires Agrees(text, memory) && memory.work < limit && NextBrace(text, i) != NOT_FOUND
    requires Owes(whole, found, tested, Loop(text, decode, limit, memory, tracker, i))
    ensures
      var start := NextBrace(text, i);
      var (end, after) := Find(text, limit, memory, start);
      && Agrees(text, after)
      && (end == NOT_FOUND || start < end)
      && var n := Continue(decode, tracker, start, end);
      Owes(whole, found + n.found, tested + n.tested, Loop(text, decode, limit, after, n.tracker, n.resume))
  {
    FindAgrees(text, limit, memory, NextBrace(text, i));
  }

  /** Finds the next brace; `cost` is the number of characters looked at. */
  method SearchBrace(text: string, i: nat) returns (start: int, ghost cost: nat)
    requires i <= |text|
    ensures start == NextBrace(text, i)
    ensures cost == if start == NOT_FOUND then |text| - i else start + 1 - i
  {
    var j := i;
    while j < |text|
      invariant i <= j <= |text|
      invariant NextBrace(text, i) == NextBrace(text, j)
    {
      if text[j] == '{' {
        return j, j + 1 - i;
      }
      j := j + 1;
    }
    return NOT_FOUND, |text| - i;
  }

  /** The searches so far read at most the text before `i`; the white-space looks read at most the
    text before `frontier`, and from `i` to there is white space only. */
  ghost predicate Accounted(text: string, i: nat, searched: nat, skipped: nat, frontier: nat) {
    && searched <= |text| && (i <= |text| ==> searched <= i)
    && skipped <= frontier <= |text|
    && forall x | i <= x < frontier :: IsSpace(text[x])
  }

  /** The runs of white space that follow two braces are disjoint: a brace is no white space. */
  lemma BraceEndsSpaces(text: string, i: nat, start: nat, searched: nat, skipped: nat, frontier: nat,
                        resume: nat, skipped': nat)
    requires Accounted(text, i, searched, skipped, frontier)
    requires start == NextBrace(text, i) && start < resume
    requires skipped' <= skipped + SkipSpaces(text, start + 1) - start
    ensures Accounted(text, resume, searched + start + 1 - i, skipped', SkipSpaces(text, start + 1))
  {
    assert frontier <= start by {
      assert !IsSpace(text[start]);
    }
  }

  lemma PayloadsAppend<T>(found: seq<Found<T>>, more: seq<Found<T>>)
    ensures Payloads(found + more) == Payloads(found) + Payloads(more)
  {
  }

  /** Decodes the candidate at `start` and says what it adds and where to resume. */
  method TestCandidate<T>(decode: nat -> Decoded<T>, stats: ScanStats, failures: NestedFailureTracker,
                          start: nat, end: int)
    returns (accepted: seq<T>, resume: nat, ghost found: seq<Found<T>>)
    requires start < end
    modifies stats`candidatesTested, failures
    ensures stats.candidatesTested == old(stats.candidatesTested) + 1
    ensures Next(failures.Contents(), resume, found, 1) == Continue(decode, old(failures.Contents()), start, end)
    ensures accepted == Payloads(found)
  {
    stats.candidatesTested := stats.candidatesTested + 1;
    match decode(start) {
      case Malformed =>
        accepted, found := [], [];
        resume := failures.RecordFailure(start, end);
      case Dict(payload, decodedEnd) =>
        resume := Max(decodedEnd, end + 1);
        accepted, found := [payload], [Found(payload, start, decodedEnd, resume)];
        failures.Reset();
      case OtherValue =>
        accepted, resume, found := [], start + 1, [];
    }
  }

  /** The search from `start` and what follows from it. */
  method TryStart<T>(decode: nat -> Decoded<T>, scanner: JsonObjectScanner, failures: NestedFailureTracker, start: nat)
    returns (accepted: seq<T>, resume: nat, ghost n: Next<T>)
    requires scanner.Valid() && IsOpenBrace(scanner.text, start)
    modifies scanner, scanner.stats, failures
    ensures scanner.Valid()
    ensures
      var (end, after) := Find(scanner.text, scanner.workLimit, old(scanner.Contents()), start);
      && scanner.Contents() == after
      && (end == NOT_FOUND || start < end)
      && n == Continue(decode, old(failures.Contents()), start, end)
    ensures failures.Contents() == n.tracker && resume == n.resume && accepted == Payloads(n.found)
    ensures scanner.stats.candidatesTested == old(scanner.stats.candidatesTested) + n.tested
    ensures scanner.uncharged <= old(scanner.uncharged) + SkipSpaces(scanner.text, start + 1) - start
  {
    var end := scanner.FindObjectEnd(start);
    n := Continue(decode, failures.Contents(), start, end);
    if end == NOT_FOUND {
      accepted, resume := [], start + 1;
    } else {
      ghost var found;
      accepted, resume, found := TestCandidate(decode, scanner.stats, failures, start, end);
    }
  }

  /** `uncharged` counts the characters that the run looks at without charging them to the work
    counter: the brace searches and the white-space runs. Together they cost at most two passes. */
  method IterJsonObjects<T>(text: string, decode: nat -> Decoded<T>, scanStats: ScanStats?,
                            maxScanWork: Option<int>, maxNestedFailures: int)
    returns (objects: seq<T>, ghost uncharged: nat)
    modifies scanStats
    ensures
      var work := if scanStats == null then 0 else old(scanStats.charsScanned);
      var tested := if scanStats == null then 0 else old(scanStats.candidatesTested);
      var r := Loop(text, decode, WorkLimit(text, maxScanWork), Memory(map[], {}, work),
                    Tracker(maxNestedFailures, -1, 0), 0);
      && objects == Payloads(r.found)
      && (scanStats != null ==>
            scanStats.charsScanned == r.memory.work && scanStats.candidatesTested == tested + r.tested)
    ensures scanStats != null ==>
      scanStats.charsScanned <= Max(old(scanStats.charsScanned), WorkLimit(text, maxScanWork))
    ensures uncharged <= 2 * |text|
  {
    var stats := scanStats;
    if stats == null {
      stats := new ScanStats();
    }
    var scanner := new JsonObjectScanner(text, stats, maxScanWork);
    var failures := new NestedFailureTracker(maxNestedFailures);
    ghost var limit := scanner.workLimit;
    ghost var whole := Loop(text, decode, limit, scanner.Contents(), failures.Contents(), 0);
    WorkStaysBounded(text, decode, limit, scanner.Contents(), failures.Contents(), 0);
    ghost var rest, tested0 := whole, stats.candidatesTested;
    ghost var found: seq<Found<T>> := [];
    ghost var searched: nat := 0;
    ghost var frontier: nat := 0;
    objects := [];
    var i := 0;

    while i < |text| && !scanner.WorkExhausted()
      invariant 0 <= i
      invariant scanner.Valid() && scanner.text == text && scanner.stats == stats && scanner.workLimit == limit
      invariant fresh(scanner) && fresh(failures) && (stats == scanStats || fresh(stats))
      invariant objects == Payloads(found)
      invariant rest == Loop(text, decode, limit, scanner.Contents(), failures.Contents(), i)
      invariant Owes(whole, found, stats.candidatesTested - tested0, rest)
      invariant Accounted(text, i, searched, scanner.uncharged, frontier)
      decreases |text| - i
    {
      var start, cost := SearchBrace(text, i);
      if start == NOT_FOUND {
        searched := searched + cost;
        break;
      }
      OneStepOfLoop(text, decode, limit, scanner.Contents(), failures.Contents(), i, whole, found,
                    stats.candidatesTested - tested0);
      ghost var skipped := scanner.uncharged;
      var accepted, resume, n := TryStart(decode, scanner, failures, start);
      BraceEndsSpaces(text, i, start, searched, skipped, frontier, resume, scanner.uncharged);
      searched, frontier := searched + cost, SkipSpaces(text, start + 1);
      PayloadsAppend(found, n.found);
      objects, found := objects + accepted, found + n.found;
      i := resume;
      rest := Loop(text, decode, limit, scanner.Contents(), failures.Contents(), i);
    }
    uncharged := searched + scanner.uncharged;
  }
}
