/** `_JsonObjectScanner`: the same search with a memory of earlier scans and a work limit.

  `ScanFrom` and `Find` say step by step what one search does to the memory; the class does it in
  place. The lemmas prove that the memory always agrees with `Match`. */
module JsonScanner {
  import opened JsonText
  import opened Wrappers

  /** What a scanner keeps between searches. `work` is `ScanStats.chars_scanned`. */
  datatype Memory = Memory(pairs: map<nat, nat>, unclosed: set<nat>, work: int)

  /** A scan in progress: the string state, the open braces, and the pairs known so far. */
  datatype Scan = Scan(inString: bool, escape: bool, stack: seq<nat>, pairs: map<nat, nat>)

  datatype ScanResult = ScanResult(found: int, stack: seq<nat>, pairs: map<nat, nat>, work: int)

  /** A scan starts on a brace, so a closing brace always finds one to close. */
  predicate CanRead(text: string, k: nat, s: Scan) {
    && k <= |text|
    && (s.stack == [] ==> !s.inString && IsOpenBrace(text, k))
    && (!s.inString ==> !s.escape)
  }

  /** The scan after the character at `k`. */
  function Read(text: string, k: nat, s: Scan): (s': Scan)
    requires CanRead(text, k, s) && k < |text|
    ensures !Closes(text, k, s) ==> CanRead(text, k + 1, s')
  {
    if s.inString then
      var (inString, escape) := AdvanceStringState(text[k], s.escape);
      s.(inString := inString, escape := escape)
    else if text[k] == '"' then s.(inString := true)
    else if text[k] == '{' then s.(stack := s.stack + [k])
    else if text[k] == '}' then
      var last := |s.stack| - 1;
      s.(stack := s.stack[..last], pairs := s.pairs[s.stack[last] := k])
    else s
  }

  /** The character at `k` closes the brace the scan started on. */
  predicate Closes(text: string, k: nat, s: Scan)
    requires k < |text|
  {
    !s.inString && text[k] == '}' && |s.stack| == 1
  }

  function ScanFrom(text: string, limit: int, k: nat, s: Scan, work: int): (r: ScanResult)
    requires CanRead(text, k, s)
    decreases |text| - k
  {
    if k == |text| then ScanResult(NOT_FOUND, s.stack, s.pairs, work)
    else if work + 1 >= limit then ScanResult(NOT_FOUND, s.stack, s.pairs, work + 1)
    else
      var s' := Read(text, k, s);
      if Closes(text, k, s) then ScanResult(k, s'.stack, s'.pairs, work + 1)
      else ScanFrom(text, limit, k + 1, s', work + 1)
  }

  function ScanAt(text: string, limit: int, start: nat, pairs: map<nat, nat>, work: int): ScanResult
    requires IsOpenBrace(text, start)
  {
    ScanFrom(text, limit, start, Scan(false, false, [], pairs), work)
  }

  predicate ScannableStart(text: string, unclosed: set<nat>, start: nat)
    requires IsOpenBrace(text, start)
  {
    start !in unclosed && OpensAnObject(text, start)
  }

  function Find(text: string, limit: int, memory: Memory, start: nat): (r: (int, Memory))
    requires IsOpenBrace(text, start)
  {
    if !ScannableStart(text, memory.unclosed, start) then (NOT_FOUND, memory)
    else if start in memory.pairs then (memory.pairs[start], memory)
    else
      var r := ScanAt(text, limit, start, memory.pairs, memory.work);
      var after := Memory(r.pairs, memory.unclosed, r.work);
      if r.work >= limit then (NOT_FOUND, after)
      else if r.found == NOT_FOUND then
        (NOT_FOUND, after.(unclosed := after.unclosed + set p | p in r.stack))
      else (r.found, after)
  }

  // ----- What the memory means

  ghost predicate PairsAgree(text: string, pairs: map<nat, nat>) {
    forall p | p in pairs :: IsOpenBrace(text, p) && Match(text, p) == pairs[p]
  }

  /** Every remembered pair is what a fresh pass finds, and every remembered unclosed brace has no
    match. */
  ghost predicate Agrees(text: string, memory: Memory) {
    && PairsAgree(text, memory.pairs)
    && (forall p | p in memory.unclosed :: IsOpenBrace(text, p) && Match(text, p) == NOT_FOUND)
  }

  /** What a fresh pass with `depth` of the scan's braces open, in its string state, would find. */
  ghost function PassFrom(text: string, k: nat, s: Scan, depth: nat): int
    requires k <= |text|
  {
    MatchFrom(text, k, s.inString, s.escape, depth)
  }

  /** A fresh pass from the j-th open brace reaches `k` in the same state, with the braces opened
    since then still open. */
  ghost predicate StackAgrees(text: string, k: nat, s: Scan)
    requires k <= |text|
  {
    forall j | 0 <= j < |s.stack| ::
      IsOpenBrace(text, s.stack[j]) && Match(text, s.stack[j]) == PassFrom(text, k, s, |s.stack| - j)
  }

  /** One character, seen by a pass that counts `depth` of the scan's open braces. */
  lemma ReadKeepsPass(text: string, k: nat, s: Scan, depth: nat)
    requires CanRead(text, k, s) && k < |text| && depth <= |s.stack|
    ensures
      var s' := Read(text, k, s);
      && (|s'.stack| == |s.stack| ==> PassFrom(text, k, s, depth) == PassFrom(text, k + 1, s', depth))
      && (|s'.stack| > |s.stack| ==> PassFrom(text, k, s, depth) == PassFrom(text, k + 1, s', depth + 1))
      && (|s'.stack| < |s.stack| && depth > 1 ==>
            PassFrom(text, k, s, depth) == PassFrom(text, k + 1, s', depth - 1))
      && (|s'.stack| < |s.stack| && depth == 1 ==> PassFrom(text, k, s, depth) == k)
  {
  }

  lemma ReadKeepsStack(text: string, k: nat, s: Scan)
    requires CanRead(text, k, s) && k < |text|
    requires StackAgrees(text, k, s) && PairsAgree(text, s.pairs)
    ensures
      var s' := Read(text, k, s);
      && StackAgrees(text, k + 1, s')
      && PairsAgree(text, s'.pairs)
      && s.pairs.Keys <= s'.pairs.Keys
  {
    var s' := Read(text, k, s);
    forall j | 0 <= j < |s'.stack|
      ensures IsOpenBrace(text, s'.stack[j])
      ensures Match(text, s'.stack[j]) == PassFrom(text, k + 1, s', |s'.stack| - j)
    {
      if j < |s.stack| {
        ReadKeepsPass(text, k, s, |s.stack| - j);
      } else {
        assert Match(text, k) == PassFrom(text, k, s.(stack := []), 0);
      }
    }
    if s.stack != [] {
      ReadKeepsPass(text, k, s, 1);
    }
  }

  /** What a scan owes: its pairs agree with a fresh pass, below the limit it returns the match, and
    at the limit it returns nothing. Braces left open at the end of the text have no match. */
  ghost predicate IsRight(text: string, limit: int, end: int, s: Scan, work: int, r: ScanResult) {
    && PairsAgree(text, r.pairs)
    && s.pairs.Keys <= r.pairs.Keys
    && (r.work < limit ==> r.found == end)
    && (r.work >= limit && work < limit ==> r.found == NOT_FOUND)
    && (r.work < limit && r.found == NOT_FOUND ==>
          forall p | p in r.stack :: IsOpenBrace(text, p) && Match(text, p) == NOT_FOUND)
  }

  /** What the whole scan would find is not changed by reading one character. */
  lemma ReadKeepsGoal(text: string, k: nat, s: Scan)
    requires CanRead(text, k, s) && k < |text|
    ensures
      var s' := Read(text, k, s);
      var goal := PassFrom(text, k, s, |s.stack|);
      goal == if Closes(text, k, s) then k else PassFrom(text, k + 1, s', |s'.stack|)
  {
    ReadKeepsPass(text, k, s, |s.stack|);
  }

  lemma OpenAtEndHaveNoMatch(text: string, s: Scan)
    requires StackAgrees(text, |text|, s)
    ensures forall p | p in s.stack :: IsOpenBrace(text, p) && Match(text, p) == NOT_FOUND
  {
    forall p | p in s.stack
      ensures IsOpenBrace(text, p) && Match(text, p) == NOT_FOUND
    {
      var j :| 0 <= j < |s.stack| && s.stack[j] == p;
    }
  }

  lemma {:induction false} ScanAgrees(text: string, limit: int, k: nat, s: Scan, work: int)
    requires CanRead(text, k, s)
    requires StackAgrees(text, k, s) && PairsAgree(text, s.pairs)
    ensures IsRight(text, limit, PassFrom(text, k, s, |s.stack|), s, work, ScanFrom(text, limit, k, s, work))
    decreases |text| - k
  {
    if k == |text| {
      OpenAtEndHaveNoMatch(text, s);
    } else if work + 1 < limit {
      ReadKeepsGoal(text, k, s);
      ReadKeepsStack(text, k, s);
      if !Closes(text, k, s) {
        ScanAgrees(text, limit, k + 1, Read(text, k, s), work + 1);
      }
    }
  }

  /** The exact price of one scan: up to and including the closing brace, or the rest of the text;
    if that price reaches the limit, the scan stops there with nothing found. */
  ghost predicate IsPriced(text: string, limit: int, k: nat, end: int, work: int, r: ScanResult) {
    var price := if end == NOT_FOUND then |text| - k else end + 1 - k;
    if work + price < limit
      then r.found == end && r.work == work + price
      else r.found == NOT_FOUND && r.work == limit
  }

  lemma {:induction false} ScanCost(text: string, limit: int, k: nat, s: Scan, work: int)
    requires CanRead(text, k, s) && work < limit
    ensures IsPriced(text, limit, k, PassFrom(text, k, s, |s.stack|), work, ScanFrom(text, limit, k, s, work))
    decreases |text| - k
  {
    if k < |text| {
      ReadKeepsGoal(text, k, s);
      if work + 1 < limit && !Closes(text, k, s) {
        ScanCost(text, limit, k + 1, Read(text, k, s), work + 1);
      }
    }
  }

  /** A scan that stayed below its limit does not notice a higher one. */
  lemma {:induction false} ScanIgnoresHigherLimit(text: string, limit: int, higher: int, k: nat, s: Scan, work: int)
    requires CanRead(text, k, s) && limit <= higher
    requires ScanFrom(text, limit, k, s, work).work < limit
    ensures ScanFrom(text, higher, k, s, work) == ScanFrom(text, limit, k, s, work)
    decreases |text| - k
  {
    if k < |text| && work + 1 < limit && !Closes(text, k, s) {
      ScanIgnoresHigherLimit(text, limit, higher, k + 1, Read(text, k, s), work + 1);
    }
  }

  // ----- One search

  /** A search keeps the memory right, and every match it returns is the plain one; when it stays
    below the limit its answer is the plain one either way, so it does not depend on the memory. */
  lemma FindAgrees(text: string, limit: int, memory: Memory, start: nat)
    requires IsOpenBrace(text, start)
    requires Agrees(text, memory)
    ensures
      var (end, after) := Find(text, limit, memory, start);
      && Agrees(text, after)
      && (end != NOT_FOUND ==> end == PlainEnd(text, start))
      && (after.work < limit ==> end == PlainEnd(text, start))
  {
    if ScannableStart(text, memory.unclosed, start) && start !in memory.pairs {
      ScanAgrees(text, limit, start, Scan(false, false, [], memory.pairs), memory.work);
    }
  }

  /** A search never takes the work past the limit, costs at most one pass over the rest of the
    text, and returns nothing once the limit is reached, unless the answer was remembered. */
  lemma FindCost(text: string, limit: int, memory: Memory, start: nat)
    requires IsOpenBrace(text, start)
    requires Agrees(text, memory) && memory.work < limit
    ensures
      var (end, after) := Find(text, limit, memory, start);
      && memory.work <= after.work <= limit
      && after.work <= memory.work + |text| - start
      && (end != NOT_FOUND ==> after.work < limit && after.work <= memory.work + end + 1 - start)
      && (PlainEnd(text, start) != NOT_FOUND && after.work == limit ==>
            memory.work + PlainEnd(text, start) + 1 - start >= limit)
  {
    if ScannableStart(text, memory.unclosed, start) && start !in memory.pairs {
      ScanCost(text, limit, start, Scan(false, false, [], memory.pairs), memory.work);
    }
  }

  lemma FindIgnoresHigherLimit(text: string, limit: int, higher: int, memory: Memory, start: nat)
    requires IsOpenBrace(text, start)
    requires limit <= higher
    requires Find(text, limit, memory, start).1.work < limit
    ensures Find(text, higher, memory, start) == Find(text, limit, memory, start)
  {
    if ScannableStart(text, memory.unclosed, start) && start !in memory.pairs {
      ScanIgnoresHigherLimit(text, limit, higher, start, Scan(false, false, [], memory.pairs), memory.work);
    }
  }

  // ----- Any sequence of searches

  /** The memory after searching from each of `starts` in turn. */
  function AfterSearches(text: string, limit: int, memory: Memory, starts: seq<nat>): Memory
    requires forall s | s in starts :: IsOpenBrace(text, s)
    decreases |starts|
  {
    if starts == [] then memory
    else AfterSearches(text, limit, Find(text, limit, memory, starts[0]).1, starts[1..])
  }

  lemma {:induction false} SearchesAgree(text: string, limit: int, memory: Memory, starts: seq<nat>)
    requires forall s | s in starts :: IsOpenBrace(text, s)
    requires Agrees(text, memory)
    ensures Agrees(text, AfterSearches(text, limit, memory, starts))
    decreases |starts|
  {
    if starts != [] {
      FindAgrees(text, limit, memory, starts[0]);
      SearchesAgree(text, limit, Find(text, limit, memory, starts[0]).1, starts[1..]);
    }
  }

  /** History does not matter: after any two sequences of searches, cut off by the limit or not, two
    searches from one brace that both stay below the limit give the same answer. */
  lemma SearchIgnoresHistory(text: string, limit: int, work1: int, starts1: seq<nat>,
                             work2: int, starts2: seq<nat>, start: nat)
    requires forall s | s in starts1 :: IsOpenBrace(text, s)
    requires forall s | s in starts2 :: IsOpenBrace(text, s)
    requires IsOpenBrace(text, start)
    ensures
      var m1 := AfterSearches(text, limit, Memory(map[], {}, work1), starts1);
      var m2 := AfterSearches(text, limit, Memory(map[], {}, work2), starts2);
      var (end1, after1) := Find(text, limit, m1, start);
      var (end2, after2) := Find(text, limit, m2, start);
      after1.work < limit && after2.work < limit ==> end1 == end2 == PlainEnd(text, start)
  {
    SearchesAgree(text, limit, Memory(map[], {}, work1), starts1);
    SearchesAgree(text, limit, Memory(map[], {}, work2), starts2);
    FindAgrees(text, limit, AfterSearches(text, limit, Memory(map[], {}, work1), starts1), start);
    FindAgrees(text, limit, AfterSearches(text, limit, Memory(map[], {}, work2), starts2), start);
  }

  // ----- What is remembered is not searched again

  /** The answer for the brace is in the memory. */
  predicate Knows(memory: Memory, p: nat) {
    p in memory.pairs || p in memory.unclosed
  }

  ghost predicate KnowsMore(m: Memory, m': Memory) {
    forall p | Knows(m, p) :: Knows(m', p)
  }

  /** A scan that is not cut off ends with every brace that was open on it paired or still open. */
  lemma {:induction false} ScanKeepsOpen(text: string, limit: int, k: nat, s: Scan, work: int)
    requires CanRead(text, k, s)
    ensures
      var r := ScanFrom(text, limit, k, s, work);
      && (forall p | p in s.stack || p in s.pairs :: p in r.pairs || p in r.stack)
      && (r.found != NOT_FOUND ==> r.stack == [])
    decreases |text| - k
  {
    if k < |text| && work + 1 < limit {
      var s' := Read(text, k, s);
      assert forall p | p in s.stack || p in s.pairs :: p in s'.stack || p in s'.pairs by {
        assert s.stack != [] ==> s.stack == s.stack[..|s.stack| - 1] + [s.stack[|s.stack| - 1]];
      }
      if !Closes(text, k, s) {
        ScanKeepsOpen(text, limit, k + 1, s', work + 1);
      }
    }
  }

  lemma FindRemembers(text: string, limit: int, memory: Memory, start: nat)
    requires IsOpenBrace(text, start) && Agrees(text, memory)
    ensures
      var after := Find(text, limit, memory, start).1;
      && KnowsMore(memory, after)
      && (after.work < limit && OpensAnObject(text, start) ==> Knows(after, start))
  {
    if ScannableStart(text, memory.unclosed, start) && start !in memory.pairs {
      var s := Scan(false, false, [], memory.pairs);
      ScanAgrees(text, limit, start, s, memory.work);
      if memory.work + 1 < limit {
        assert Read(text, start, s) == s.(stack := [start]);
        ScanKeepsOpen(text, limit, start + 1, s.(stack := [start]), memory.work + 1);
      }
    }
  }

  lemma {:induction false} SearchesRemember(text: string, limit: int, memory: Memory, starts: seq<nat>)
    requires forall s | s in starts :: IsOpenBrace(text, s)
    requires Agrees(text, memory)
    ensures KnowsMore(memory, AfterSearches(text, limit, memory, starts))
    decreases |starts|
  {
    if starts != [] {
      FindAgrees(text, limit, memory, starts[0]);
      FindRemembers(text, limit, memory, starts[0]);
      SearchesRemember(text, limit, Find(text, limit, memory, starts[0]).1, starts[1..]);
    }
  }

  /** Once a search from a brace was not cut off, a later one from it, after any others, reads nothing, gives
    the same answer and changes nothing. */
  lemma SearchIsPaidOnce(text: string, limit: int, memory: Memory, start: nat, starts: seq<nat>)
    requires IsOpenBrace(text, start) && Agrees(text, memory)
    requires forall s | s in starts :: IsOpenBrace(text, s)
    requires Find(text, limit, memory, start).1.work < limit
    ensures
      var (end, after) := Find(text, limit, memory, start);
      var later := AfterSearches(text, limit, after, starts);
      Find(text, limit, later, start) == (end, later)
  {
    var after := Find(text, limit, memory, start).1;
    FindAgrees(text, limit, memory, start);
    FindRemembers(text, limit, memory, start);
    SearchesRemember(text, limit, after, starts);
    SearchesAgree(text, limit, after, starts);
  }

  // ----- The scanner in place

  class ScanStats {
    var charsScanned: int
    var candidatesTested: int

    constructor ()
      ensures charsScanned == 0 && candidatesTested == 0
    {
      charsScanned, candidatesTested := 0, 0;
    }
  }

  class JsonObjectScanner {
    const text: string
    const stats: ScanStats
    const workLimit: int
    var matchedPairs: map<nat, nat>
    var unclosedStarts: set<nat>
    /** Characters read without being charged to `stats`. */
    ghost var uncharged: nat

    ghost function Contents(): Memory
      reads this, stats
    {
      Memory(matchedPairs, unclosedStarts, stats.charsScanned)
    }

    ghost predicate Valid()
      reads this, stats
    {
      Agrees(text, Contents())
    }

    constructor (text: string, stats: ScanStats, maxScanWork: Option<int>)
      ensures Valid() && this.text == text && this.stats == stats && uncharged == 0
      ensures workLimit == WorkLimit(text, maxScanWork)
      ensures Contents() == Memory(map[], {}, stats.charsScanned)
    {
      this.text, this.stats := text, stats;
      workLimit := WorkLimit(text, maxScanWork);
      matchedPairs, unclosedStarts, uncharged := map[], {}, 0;
    }

    predicate WorkExhausted()
      reads stats
    {
      stats.charsScanned >= workLimit
    }

    /** Reads the run of white space after the brace and the character that ends it. */
    method IsScannableStart(start: nat) returns (ok: bool)
      requires IsOpenBrace(text, start)
      modifies this`uncharged
      ensures ok == ScannableStart(text, unclosedStarts, start)
      ensures old(uncharged) <= uncharged <= old(uncharged) + SkipSpaces(text, start + 1) - start
    {
      if start in unclosedStarts {
        return false;
      }
      var j := start + 1;
      while j < |text| && IsSpace(text[j])
        invariant start < j <= |text|
        invariant SkipSpaces(text, j) == SkipSpaces(text, start + 1)
        invariant uncharged == old(uncharged) + j - start - 1
      {
        j := j + 1;
        uncharged := uncharged + 1;
      }
      if j < |text| {
        uncharged := uncharged + 1;
      }
      ok := j < |text| && text[j] in {'"', '}'};
    }

    method FindObjectEnd(start: nat) returns (end: int)
      requires Valid() && IsOpenBrace(text, start)
      modifies this, stats`charsScanned
      ensures Valid()
      ensures (end, Contents()) == Find(text, workLimit, old(Contents()), start)
      ensures end != NOT_FOUND || !WorkExhausted() ==> end == PlainEnd(text, start)
      ensures old(uncharged) <= uncharged <= old(uncharged) + SkipSpaces(text, start + 1) - start
    {
      FindAgrees(text, workLimit, Contents(), start);
      var scannable := IsScannableStart(start);
      if !scannable {
        return NOT_FOUND;
      }
      if start in matchedPairs {
        return matchedPairs[start];
      }
      var found, openStack := ScanMatchingBrace(start);
      if WorkExhausted() {
        return NOT_FOUND;
      }
      if found == NOT_FOUND {
        unclosedStarts := unclosedStarts + set p | p in openStack;
      }
      return found;
    }

    method ScanMatchingBrace(start: nat) returns (found: int, openStack: seq<nat>)
      requires IsOpenBrace(text, start)
      modifies this`matchedPairs, stats`charsScanned
      ensures ScanResult(found, openStack, matchedPairs, stats.charsScanned)
           == ScanAt(text, workLimit, start, old(matchedPairs), old(stats.charsScanned))
    {
      var inString, escape := false, false;
      openStack := [];
      for k := start to |text|
        invariant CanRead(text, k, Scan(inString, escape, openStack, matchedPairs))
        invariant ScanAt(text, workLimit, start, old(matchedPairs), old(stats.charsScanned))
               == ScanFrom(text, workLimit, k, Scan(inString, escape, openStack, matchedPairs), stats.charsScanned)
      {
        stats.charsScanned := stats.charsScanned + 1;
        if WorkExhausted() {
          return NOT_FOUND, openStack;
        }
        var c := text[k];
        if inString {
          var (inString', escape') := AdvanceStringState(c, escape);
          inString, escape := inString', escape';
        } else if c == '"' {
          inString := true;
        } else if c == '{' {
          openStack := openStack + [k];
        } else if c == '}' {
          matchedPairs := matchedPairs[openStack[|openStack| - 1] := k];
          openStack := openStack[..|openStack| - 1];
          if openStack == [] {
            return k, openStack;
          }
        }
      }
      return NOT_FOUND, openStack;
    }
  }

  function WorkLimit(text: string, maxScanWork: Option<int>): int {
    match maxScanWork
    case Some(limit) => limit
    case None => if 10 * |text| > 100_000 then 10 * |text| else 100_000
  }

  /** Without a limit of the caller: ten lengths of the text, and one hundred thousand at least. */
  lemma DefaultLimitIs(text: string, own: int)
    ensures WorkLimit(text, Some(own)) == own
    ensures WorkLimit(text, None) >= 100_000 && WorkLimit(text, None) >= 10 * |text|
    ensures WorkLimit(text, None) == 100_000 || WorkLimit(text, None) == 10 * |text|
  {
  }
}
