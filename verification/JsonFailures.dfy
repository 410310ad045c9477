/** Objects among candidates that do not decode: which of them come back, over whole runs.

  A candidate is a brace that a plain search closes. What follows is told from the text, the decoder and
  the failure budget alone; the tracker of the run is not mentioned. */
module JsonFailures {
  import opened JsonText
  import opened JsonScanner
  import opened JsonObjects

  predicate IsCandidate(text: string, p: nat) {
    IsOpenBrace(text, p) && PlainEnd(text, p) != NOT_FOUND
  }

  /** The candidates from `i` up to `to`. */
  function Candidates(text: string, i: nat, to: nat): nat
    decreases to - i
  {
    if i >= to then 0 else (if IsCandidate(text, i) then 1 else 0) + Candidates(text, i + 1, to)
  }

  /** From `i` up to `to` no candidate decodes to an object, and those that do not decode at all are `fs`. */
  predicate OnlyFails<T>(text: string, decode: nat -> Decoded<T>, i: nat, to: nat, fs: seq<Failure>)
    decreases to - i
  {
    if i >= to then fs == []
    else if !IsCandidate(text, i) || decode(i).OtherValue? then OnlyFails(text, decode, i + 1, to, fs)
    else
      && decode(i).Malformed? && fs != [] && fs[0] == Failure(i, PlainEnd(text, i))
      && OnlyFails(text, decode, i + 1, to, fs[1..])
  }

  // ----- The budget

  /** Of the failures, number `j` is the first of those that reach furthest. */
  predicate IsFurthest(fs: seq<Failure>, j: nat) {
    && j < |fs|
    && (forall h | 0 <= h < j :: fs[h].end < fs[j].end)
    && (forall h | j < h < |fs| :: fs[h].end <= fs[j].end)
  }

  /** The failures from the furthest reaching one on use up the budget, which is at least two. */
  predicate UsesUp(fs: seq<Failure>, budget: int) {
    var counted := Max(budget, 2);
    counted <= |fs| && IsFurthest(fs, |fs| - counted)
  }

  predicate StaysBelow(fs: seq<Failure>, budget: int) {
    forall k | 0 < k <= |fs| :: !UsesUp(fs[..k], budget)
  }

  lemma FewStayBelow(fs: seq<Failure>, budget: int)
    requires |fs| < Max(budget, 2)
    ensures StaysBelow(fs, budget)
  {
  }

  function Fresh(budget: int): Tracker {
    Tracker(budget, -1, 0)
  }

  function Counted(fs: seq<Failure>, budget: int): Tracker {
    AfterFailures(Fresh(budget), fs)
  }

  lemma BelowBefore(fs: seq<Failure>, budget: int)
    requires fs != [] && StaysBelow(fs, budget)
    ensures StaysBelow(fs[..|fs| - 1], budget) && !UsesUp(fs, budget)
  {
    var before := fs[..|fs| - 1];
    assert fs[..|fs|] == fs;
    forall k | 0 < k <= |before|
      ensures !UsesUp(before[..k], budget)
    {
      assert before[..k] == fs[..k];
    }
  }

  lemma BelowAfter(before: seq<Failure>, last: Failure, budget: int)
    requires StaysBelow(before, budget) && !UsesUp(before + [last], budget)
    ensures StaysBelow(before + [last], budget)
  {
    var fs := before + [last];
    forall k | 0 < k <= |fs|
      ensures !UsesUp(fs[..k], budget)
    {
      assert k == |fs| || fs[..k] == before[..k];
      assert fs[..|fs|] == fs;
    }
  }

  /** Below the budget, the tracker holds the furthest reach and counts from the failure that has it. */
  lemma {:induction false} CountedFromFurthest(fs: seq<Failure>, budget: int) returns (j: nat)
    requires fs != [] && StaysBelow(fs, budget)
    ensures IsFurthest(fs, j) && |fs| - j < Max(budget, 2)
    ensures Counted(fs, budget) == Tracker(budget, fs[j].end, |fs| - j)
  {
    var before, last := fs[..|fs| - 1], fs[|fs| - 1];
    BelowBefore(fs, budget);
    j := |fs| - 1;
    if before == [] {
      assert Counted(before, budget) == Fresh(budget);
    } else {
      var k := CountedFromFurthest(before, budget);
      if last.end <= fs[k].end {
        j := k;
        assert forall h | 0 <= h < |before| :: fs[h] == before[h];
        assert IsFurthest(fs, k);
      }
    }
  }

  /** The failure that uses up the budget resets the tracker and leads past the furthest reach. */
  lemma UsedUpLeadsOut(before: seq<Failure>, last: Failure, budget: int)
    requires StaysBelow(before, budget) && UsesUp(before + [last], budget)
    ensures
      var fs := before + [last];
      Counted(before, budget).RecordFailure(last.start, last.end)
        == (Fresh(budget), fs[|fs| - Max(budget, 2)].end + 1)
  {
    var fs := before + [last];
    var j := |fs| - Max(budget, 2);
    assert forall h | 0 <= h < |before| :: fs[h] == before[h];
    var k := CountedFromFurthest(before, budget);
    assert k == j;
    assert fs[|before|] == last && last.end <= fs[j].end;
  }

  /** A failure below the budget resumes one past its own start. */
  lemma StepsInside(before: seq<Failure>, last: Failure, budget: int)
    requires StaysBelow(before + [last], budget)
    ensures Counted(before, budget).RecordFailure(last.start, last.end)
         == (Counted(before + [last], budget), last.start + 1)
  {
    var fs := before + [last];
    assert fs[..|fs| - 1] == before;
    BelowBefore(fs, budget);
    var j := CountedFromFurthest(fs, budget);
  }

  lemma BelowOfPrefix(fs: seq<Failure>, k: nat, budget: int)
    requires k <= |fs| && StaysBelow(fs, budget)
    ensures StaysBelow(fs[..k], budget)
  {
    forall l | 0 < l <= k
      ensures !UsesUp(fs[..k][..l], budget)
    {
      assert fs[..k][..l] == fs[..l];
    }
  }

  // ----- Runs of failures

  /** The run goes on at `to` after `tested` candidates. */
  ghost predicate GoesOn<T>(r: Plain<T>, tested: nat, rest: Plain<T>) {
    r == Plain(rest.found, tested + rest.tested)
  }

  lemma GoesOnTwice<T>(r: Plain<T>, first: nat, between: Plain<T>, second: nat, rest: Plain<T>)
    requires GoesOn(r, first, between) && GoesOn(between, second, rest)
    ensures GoesOn(r, first + second, rest)
  {
  }

  lemma PassesOne<T>(text: string, decode: nat -> Decoded<T>, tracker: Tracker, i: nat)
    requires i < |text| && (IsCandidate(text, i) ==> decode(i).OtherValue?)
    ensures GoesOn(PlainLoop(text, decode, tracker, i), if IsCandidate(text, i) then 1 else 0,
                   PlainLoop(text, decode, tracker, i + 1))
  {
  }

  lemma FailsOne<T>(text: string, decode: nat -> Decoded<T>, tracker: Tracker, i: nat)
    requires IsCandidate(text, i) && decode(i).Malformed?
    ensures
      var (tracker', resume) := tracker.RecordFailure(i, PlainEnd(text, i));
      resume > i && GoesOn(PlainLoop(text, decode, tracker, i), 1, PlainLoop(text, decode, tracker', resume))
  {
  }

  lemma {:induction false} FailuresLeadOn<T>(text: string, decode: nat -> Decoded<T>, budget: int,
                                             before: seq<Failure>, i: nat, to: nat, fs: seq<Failure>)
    requires i <= to <= |text| && OnlyFails(text, decode, i, to, fs) && StaysBelow(before + fs, budget)
    ensures GoesOn(PlainLoop(text, decode, Counted(before, budget), i), Candidates(text, i, to),
                   PlainLoop(text, decode, Counted(before + fs, budget), to))
    decreases |text| - i
  {
    if i == to {
      assert before + fs == before;
    } else if !IsCandidate(text, i) || decode(i).OtherValue? {
      PassesOne(text, decode, Counted(before, budget), i);
      FailuresLeadOn(text, decode, budget, before, i + 1, to, fs);
    } else {
      var more := before + [fs[0]];
      assert more + fs[1..] == before + fs && (before + fs)[..|more|] == more;
      BelowOfPrefix(before + fs, |more|, budget);
      StepsInside(before, fs[0], budget);
      FailsOne(text, decode, Counted(before, budget), i);
      FailuresLeadOn(text, decode, budget, more, i + 1, to, fs[1..]);
    }
  }

  lemma FailuresLeadFrom<T>(text: string, decode: nat -> Decoded<T>, budget: int, i: nat, to: nat, fs: seq<Failure>)
    requires i <= to <= |text| && OnlyFails(text, decode, i, to, fs) && StaysBelow(fs, budget)
    ensures GoesOn(PlainLoop(text, decode, Fresh(budget), i), Candidates(text, i, to),
                   PlainLoop(text, decode, Counted(fs, budget), to))
  {
    assert [] + fs == fs && Counted([], budget) == Fresh(budget);
    FailuresLeadOn(text, decode, budget, [], i, to, fs);
  }

  // ----- What comes back

  /** After failures that stay below the budget, nested in one another or not, the next object comes back,
    and the run goes on after it with nothing counted any more. */
  lemma ObjectAfterFailures<T>(text: string, decode: nat -> Decoded<T>, budget: int, i: nat, start: nat,
                               fs: seq<Failure>)
    requires i <= start && OnlyFails(text, decode, i, start, fs) && StaysBelow(fs, budget)
    requires IsCandidate(text, start) && decode(start).Dict?
    ensures
      var Dict(payload, end) := decode(start);
      var resume := Max(end, PlainEnd(text, start) + 1);
      var rest := PlainLoop(text, decode, Fresh(budget), resume);
      PlainLoop(text, decode, Fresh(budget), i)
        == Plain([Found(payload, start, end, resume)] + rest.found, Candidates(text, i, start) + 1 + rest.tested)
  {
    FailuresLeadFrom(text, decode, budget, i, start, fs);
    CountedKeepsBudget(fs, budget);
  }

  lemma {:induction false} CountedKeepsBudget(fs: seq<Failure>, budget: int)
    ensures Counted(fs, budget).maxFailures == budget
  {
    if fs != [] {
      CountedKeepsBudget(fs[..|fs| - 1], budget);
    }
  }

  /** The candidate `last` does not decode, and with it `before` uses up the budget. */
  predicate IsLast<T>(text: string, decode: nat -> Decoded<T>, budget: int, before: seq<Failure>, last: Failure) {
    && StaysBelow(before, budget) && UsesUp(before + [last], budget)
    && IsCandidate(text, last.start) && decode(last.start).Malformed? && last.end == PlainEnd(text, last.start)
  }

  /** One past the end of the object from which the failures count. */
  function LeadsOut(fs: seq<Failure>, budget: int): nat
    requires UsesUp(fs, budget)
  {
    fs[|fs| - Max(budget, 2)].end + 1
  }

  lemma LastLeadsOut<T>(text: string, decode: nat -> Decoded<T>, budget: int, before: seq<Failure>, last: Failure)
    requires IsLast(text, decode, budget, before, last)
    ensures GoesOn(PlainLoop(text, decode, Counted(before, budget), last.start), 1,
                   PlainLoop(text, decode, Fresh(budget), LeadsOut(before + [last], budget)))
  {
    UsedUpLeadsOut(before, last, budget);
    FailsOne(text, decode, Counted(before, budget), last.start);
  }

  /** The failure that uses up the budget leads past the end of the object from which it counts: no object
    inside is looked for any more, and nothing is counted any more. */
  lemma UsedUpBudgetLeadsOut<T>(text: string, decode: nat -> Decoded<T>, budget: int, i: nat,
                                before: seq<Failure>, last: Failure)
    requires i <= last.start && OnlyFails(text, decode, i, last.start, before)
    requires IsLast(text, decode, budget, before, last)
    ensures GoesOn(PlainLoop(text, decode, Fresh(budget), i), Candidates(text, i, last.start) + 1,
                   PlainLoop(text, decode, Fresh(budget), LeadsOut(before + [last], budget)))
  {
    FailuresLeadFrom(text, decode, budget, i, last.start, before);
    LastLeadsOut(text, decode, budget, before, last);
    GoesOnTwice(PlainLoop(text, decode, Fresh(budget), i), Candidates(text, i, last.start),
                PlainLoop(text, decode, Counted(before, budget), last.start), 1,
                PlainLoop(text, decode, Fresh(budget), LeadsOut(before + [last], budget)));
  }

  // ----- Whole runs

  /** A part of a run: failures that stay below the budget, and then an object or the failure that uses the
    budget up. */
  datatype Part = Kept(before: seq<Failure>, start: nat) | GivenUp(before: seq<Failure>, last: Failure)

  predicate IsKept<T>(text: string, decode: nat -> Decoded<T>, budget: int, i: nat, fs: seq<Failure>, start: nat) {
    && i <= start && OnlyFails(text, decode, i, start, fs) && StaysBelow(fs, budget)
    && IsCandidate(text, start) && decode(start).Dict?
  }

  predicate IsGivenUp<T>(text: string, decode: nat -> Decoded<T>, budget: int, i: nat, before: seq<Failure>,
                         last: Failure)
  {
    && i <= last.start && OnlyFails(text, decode, i, last.start, before)
    && IsLast(text, decode, budget, before, last)
  }

  /** The object at `start` as it is returned. */
  function ObjectAt<T>(text: string, decode: nat -> Decoded<T>, start: nat): Found<T>
    requires IsCandidate(text, start) && decode(start).Dict?
  {
    Found(decode(start).payload, start, decode(start).end, Max(decode(start).end, PlainEnd(text, start) + 1))
  }

  /** From `i` on the text falls into `parts`, and failures that stay below the budget are left. */
  ghost predicate FallsInto<T>(text: string, decode: nat -> Decoded<T>, budget: int, i: nat, parts: seq<Part>)
    decreases |parts|
  {
    if parts == [] then
      exists left :: OnlyFails(text, decode, i, |text|, left) && StaysBelow(left, budget)
    else
      match parts[0]
      case Kept(fs, start) =>
        && IsKept(text, decode, budget, i, fs, start)
        && FallsInto(text, decode, budget, ObjectAt(text, decode, start).resume, parts[1..])
      case GivenUp(before, last) =>
        && IsGivenUp(text, decode, budget, i, before, last)
        && FallsInto(text, decode, budget, LeadsOut(before + [last], budget), parts[1..])
  }

  /** The objects of the parts, and the number of candidates in them. */
  function Reading<T>(text: string, decode: nat -> Decoded<T>, budget: int, i: nat, parts: seq<Part>): Plain<T>
    requires FallsInto(text, decode, budget, i, parts)
    decreases |parts|
  {
    if parts == [] then Plain([], Candidates(text, i, |text|))
    else
      match parts[0]
      case Kept(fs, start) =>
        var found := ObjectAt(text, decode, start);
        var rest := Reading(text, decode, budget, found.resume, parts[1..]);
        Plain([found] + rest.found, Candidates(text, i, start) + 1 + rest.tested)
      case GivenUp(before, last) =>
        var rest := Reading(text, decode, budget, LeadsOut(before + [last], budget), parts[1..]);
        Plain(rest.found, Candidates(text, i, last.start) + 1 + rest.tested)
  }

  lemma EndIsRead<T>(text: string, decode: nat -> Decoded<T>, budget: int, i: nat)
    requires FallsInto(text, decode, budget, i, [])
    ensures PlainLoop(text, decode, Fresh(budget), i) == Plain([], Candidates(text, i, |text|))
  {
    if i <= |text| {
      var left :| OnlyFails(text, decode, i, |text|, left) && StaysBelow(left, budget);
      FailuresLeadFrom(text, decode, budget, i, |text|, left);
    }
  }

  lemma ReadsKept<T>(text: string, decode: nat -> Decoded<T>, budget: int, i: nat, fs: seq<Failure>, start: nat,
                     rest: seq<Part>)
    requires IsKept(text, decode, budget, i, fs, start)
    requires FallsInto(text, decode, budget, ObjectAt(text, decode, start).resume, rest)
    requires
      var next := ObjectAt(text, decode, start).resume;
      PlainLoop(text, decode, Fresh(budget), next) == Reading(text, decode, budget, next, rest)
    ensures
      var parts := [Kept(fs, start)] + rest;
      FallsInto(text, decode, budget, i, parts)
      && PlainLoop(text, decode, Fresh(budget), i) == Reading(text, decode, budget, i, parts)
  {
    var parts := [Kept(fs, start)] + rest;
    assert parts[1..] == rest;
    ObjectAfterFailures(text, decode, budget, i, start, fs);
  }

  lemma ReadsGivenUp<T>(text: string, decode: nat -> Decoded<T>, budget: int, i: nat, before: seq<Failure>,
                        last: Failure, rest: seq<Part>)
    requires IsGivenUp(text, decode, budget, i, before, last)
    requires FallsInto(text, decode, budget, LeadsOut(before + [last], budget), rest)
    requires
      var next := LeadsOut(before + [last], budget);
      PlainLoop(text, decode, Fresh(budget), next) == Reading(text, decode, budget, next, rest)
    ensures
      var parts := [GivenUp(before, last)] + rest;
      FallsInto(text, decode, budget, i, parts)
      && PlainLoop(text, decode, Fresh(budget), i) == Reading(text, decode, budget, i, parts)
  {
    var parts := [GivenUp(before, last)] + rest;
    assert parts[1..] == rest;
    UsedUpBudgetLeadsOut(text, decode, budget, i, before, last);
  }

  /** Whatever parts the text falls into, the run returns exactly their objects and tries exactly their
    candidates. */
  lemma {:induction false} RunIsReading<T>(text: string, decode: nat -> Decoded<T>, budget: int, i: nat,
                                           parts: seq<Part>)
    requires FallsInto(text, decode, budget, i, parts)
    ensures PlainLoop(text, decode, Fresh(budget), i) == Reading(text, decode, budget, i, parts)
    decreases |parts|
  {
    if parts == [] {
      EndIsRead(text, decode, budget, i);
    } else {
      match parts[0]
      case Kept(fs, start) =>
        RunIsReading(text, decode, budget, ObjectAt(text, decode, start).resume, parts[1..]);
        ReadsKept(text, decode, budget, i, fs, start, parts[1..]);
        assert parts == [Kept(fs, start)] + parts[1..];
      case GivenUp(before, last) =>
        RunIsReading(text, decode, budget, LeadsOut(before + [last], budget), parts[1..]);
        ReadsGivenUp(text, decode, budget, i, before, last, parts[1..]);
        assert parts == [GivenUp(before, last)] + parts[1..];
    }
  }

  lemma {:induction false} OneFurther<T>(text: string, decode: nat -> Decoded<T>, i: nat, to: nat, fs: seq<Failure>)
    requires i <= to < |text| && OnlyFails(text, decode, i, to, fs)
    ensures !IsCandidate(text, to) || decode(to).OtherValue? ==> OnlyFails(text, decode, i, to + 1, fs)
    ensures IsCandidate(text, to) && decode(to).Malformed? ==>
      OnlyFails(text, decode, i, to + 1, fs + [Failure(to, PlainEnd(text, to))])
    decreases |text| - i
  {
    if i < to {
      var passed := !IsCandidate(text, i) || decode(i).OtherValue?;
      var rest := if passed then fs else fs[1..];
      OneFurther(text, decode, i + 1, to, rest);
      assert !passed && IsCandidate(text, to) ==>
        (fs + [Failure(to, PlainEnd(text, to))])[1..] == rest + [Failure(to, PlainEnd(text, to))];
    }
  }

  /** Every text falls into parts. */
  lemma {:induction false} EveryTextFallsIntoParts<T>(text: string, decode: nat -> Decoded<T>, budget: int, i: nat,
                                                      at: nat, fs: seq<Failure>)
    returns (parts: seq<Part>)
    requires i <= at && OnlyFails(text, decode, i, at, fs) && StaysBelow(fs, budget)
    ensures FallsInto(text, decode, budget, i, parts)
    decreases Max(0, |text| - at)
  {
    parts := [];
    if at >= |text| {
      UpToEnd(text, decode, i, at, fs);
    } else if IsCandidate(text, at) && decode(at).Dict? {
      var resume := ObjectAt(text, decode, at).resume;
      var rest := EveryTextFallsIntoParts(text, decode, budget, resume, resume, []);
      parts := [Kept(fs, at)] + rest;
    } else if !IsCandidate(text, at) || decode(at).OtherValue? {
      OneFurther(text, decode, i, at, fs);
      parts := EveryTextFallsIntoParts(text, decode, budget, i, at + 1, fs);
    } else {
      var last := Failure(at, PlainEnd(text, at));
      var more := fs + [last];
      OneFurther(text, decode, i, at, fs);
      if UsesUp(more, budget) {
        assert more[|more| - 1] == last;
        var out := LeadsOut(more, budget);
        var rest := EveryTextFallsIntoParts(text, decode, budget, out, out, []);
        parts := [GivenUp(fs, last)] + rest;
      } else {
        BelowAfter(fs, last, budget);
        parts := EveryTextFallsIntoParts(text, decode, budget, i, at + 1, more);
      }
    }
  }

  lemma {:induction false} UpToEnd<T>(text: string, decode: nat -> Decoded<T>, i: nat, at: nat, fs: seq<Failure>)
    requires i <= at && at >= |text| && OnlyFails(text, decode, i, at, fs)
    ensures OnlyFails(text, decode, i, |text|, fs)
    decreases at - i
  {
    if i < at {
      var passed := !IsCandidate(text, i) || decode(i).OtherValue?;
      UpToEnd(text, decode, i + 1, at, if passed then fs else fs[1..]);
    }
  }

  /** The bounded run of the code, from a fresh tracker: a prefix of the objects of the parts, and all of
    them, with every candidate tried, when the limit is not reached. */
  lemma LoopIsReading<T>(text: string, decode: nat -> Decoded<T>, limit: int, memory: Memory, budget: int,
                         i: nat, parts: seq<Part>)
    requires Agrees(text, memory) && FallsInto(text, decode, budget, i, parts)
    ensures IsPrefixOf(Loop(text, decode, limit, memory, Tracker(budget, -1, 0), i), limit,
                       Reading(text, decode, budget, i, parts))
  {
    LoopIsPrefixOfPlain(text, decode, limit, memory, Fresh(budget), i);
    RunIsReading(text, decode, budget, i, parts);
  }
}
