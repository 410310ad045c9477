/** Whole texts: prose, in which braces can stand that close nothing, and JSON objects of RFC 8259. */
module JsonDocuments {
  import opened JsonText
  import opened JsonScanner
  import opened JsonGrammar
  import opened JsonObjects
  import opened Wrappers

  // ----- Text with JSON objects in it

  datatype Span = Span(start: nat, end: nat)

  /** From `i` on, one object of RFC 8259 stands at each span, and all other text is prose: a brace of
    it is none that a plain search closes. */
  ghost predicate HoldsObjects(text: string, i: nat, spans: seq<Span>)
    decreases |text| - i
  {
    var start := NextBrace(text, i);
    if start == NOT_FOUND then spans == []
    else if StartsAt(spans, start) then
      && start < spans[0].end
      && IsObjectAt(text, start, spans[0].end)
      && HoldsObjects(text, spans[0].end, spans[1..])
    else PlainEnd(text, start) == NOT_FOUND && HoldsObjects(text, start + 1, spans)
  }

  predicate StartsAt(spans: seq<Span>, start: nat) {
    spans != [] && spans[0].start == start
  }

  /** What a search from a brace of the prose can cost: nothing when the filter refuses the brace, or
    one pass over the rest of the text. */
  function ProsePrice(text: string, start: nat): nat
    requires IsOpenBrace(text, start)
  {
    if OpensAnObject(text, start) then |text| - start else 0
  }

  /** The length of the objects, and the price of the braces in the prose. */
  function Price(text: string, i: nat, spans: seq<Span>): nat
    decreases |text| - i
  {
    var start := NextBrace(text, i);
    if start == NOT_FOUND then 0
    else if StartsAt(spans, start) && start < spans[0].end then
      spans[0].end - start + Price(text, spans[0].end, spans[1..])
    else ProsePrice(text, start) + Price(text, start + 1, spans)
  }

  /** The braces in the prose that the filter lets through. */
  function Opening(text: string, i: nat, spans: seq<Span>): nat
    decreases |text| - i
  {
    var start := NextBrace(text, i);
    if start == NOT_FOUND then 0
    else if StartsAt(spans, start) && start < spans[0].end then Opening(text, spans[0].end, spans[1..])
    else (if OpensAnObject(text, start) then 1 else 0) + Opening(text, start + 1, spans)
  }

  /** The decoder reads the object at each span to its end. */
  ghost predicate DecodesEach<T>(decode: nat -> Decoded<T>, spans: seq<Span>) {
    forall s | s in spans :: decode(s.start).Dict? && decode(s.start).end == s.end
  }

  function Decodings<T>(decode: nat -> Decoded<T>, spans: seq<Span>): (found: seq<Found<T>>)
    requires DecodesEach(decode, spans)
    ensures |found| == |spans|
    ensures forall n | 0 <= n < |spans| ::
      found[n] == Found(decode(spans[n].start).payload, spans[n].start, spans[n].end, spans[n].end)
  {
    seq(|spans|, n requires 0 <= n < |spans| =>
      Found(decode(spans[n].start).payload, spans[n].start, spans[n].end, spans[n].end))
  }

  lemma DecodingsConsed<T>(decode: nat -> Decoded<T>, spans: seq<Span>)
    requires spans != [] && DecodesEach(decode, spans)
    ensures DecodesEach(decode, spans[1..])
    ensures Decodings(decode, spans)
         == [Found(decode(spans[0].start).payload, spans[0].start, spans[0].end, spans[0].end)]
            + Decodings(decode, spans[1..])
  {
  }

  /** One object's search: its last brace, at no more than its length. */
  lemma ObjectIsSearched(text: string, limit: int, memory: Memory, span: Span)
    requires Agrees(text, memory) && IsObjectAt(text, span.start, span.end)
    requires memory.work + span.end - span.start < limit && memory.work < limit
    ensures IsOpenBrace(text, span.start) && span.start < span.end
    ensures
      var (end, after) := Find(text, limit, memory, span.start);
      && end == span.end - 1
      && Agrees(text, after)
      && memory.work <= after.work <= memory.work + span.end - span.start
  {
    ObjectEndIsFound(text, span.start, span.end);
    FindAgrees(text, limit, memory, span.start);
    FindCost(text, limit, memory, span.start);
  }

  /** The walk takes the object and goes on after it. */
  lemma LoopTakesObject<T>(text: string, decode: nat -> Decoded<T>, limit: int, memory: Memory, tracker: Tracker,
                           i: nat, span: Span)
    requires Agrees(text, memory) && IsObjectAt(text, span.start, span.end) && NextBrace(text, i) == span.start
    requires memory.work + span.end - span.start < limit && memory.work < limit
    requires decode(span.start).Dict? && decode(span.start).end == span.end
    ensures IsOpenBrace(text, span.start) && Agrees(text, Find(text, limit, memory, span.start).1)
    ensures
      var rest := Loop(text, decode, limit, Find(text, limit, memory, span.start).1, tracker.Reset(), span.end);
      Loop(text, decode, limit, memory, tracker, i)
        == Outcome([Found(decode(span.start).payload, span.start, span.end, span.end)] + rest.found,
                   rest.memory, 1 + rest.tested)
  {
    ObjectIsSearched(text, limit, memory, span);
  }

  lemma PassingAddsNothing<T>(rest: Outcome<T>)
    ensures Outcome([] + rest.found, rest.memory, 0 + rest.tested) == rest
  {
    assert [] + rest.found == rest.found;
  }

  /** The walk goes past a brace of the prose. */
  lemma LoopPassesProse<T>(text: string, decode: nat -> Decoded<T>, limit: int, memory: Memory, tracker: Tracker,
                           i: nat, start: nat)
    requires Agrees(text, memory) && NextBrace(text, i) == start && PlainEnd(text, start) == NOT_FOUND
    requires memory.work + ProsePrice(text, start) < limit
    ensures
      var after := Find(text, limit, memory, start).1;
      && Agrees(text, after)
      && memory.work <= after.work <= memory.work + ProsePrice(text, start)
      && Loop(text, decode, limit, memory, tracker, i) == Loop(text, decode, limit, after, tracker, start + 1)
  {
    FindAgrees(text, limit, memory, start);
    FindCost(text, limit, memory, start);
    var after := Find(text, limit, memory, start).1;
    PassingAddsNothing(Loop(text, decode, limit, after, tracker, start + 1));
  }

  /** The run returned exactly the objects at the spans and charged at most `price`. */
  ghost predicate ReturnsAll<T>(r: Outcome<T>, decode: nat -> Decoded<T>, spans: seq<Span>, work: int, price: nat) {
    && DecodesEach(decode, spans)
    && r.found == Decodings(decode, spans)
    && r.tested == |spans|
    && r.memory.work <= work + price
  }

  lemma OneMoreObject<T>(whole: Outcome<T>, rest: Outcome<T>, decode: nat -> Decoded<T>, spans: seq<Span>,
                         work: int, workAfter: int, price: nat)
    requires spans != [] && DecodesEach(decode, spans) && spans[0].start < spans[0].end
    requires workAfter <= work + spans[0].end - spans[0].start
    requires ReturnsAll(rest, decode, spans[1..], workAfter, price)
    requires
      whole == Outcome([Found(decode(spans[0].start).payload, spans[0].start, spans[0].end, spans[0].end)] + rest.found,
                       rest.memory, 1 + rest.tested)
    ensures ReturnsAll(whole, decode, spans, work, spans[0].end - spans[0].start + price)
  {
    DecodingsConsed(decode, spans);
  }

  lemma PriceOfObject(text: string, i: nat, spans: seq<Span>)
    requires HoldsObjects(text, i, spans) && NextBrace(text, i) != NOT_FOUND && StartsAt(spans, NextBrace(text, i))
    ensures spans[0].start < spans[0].end && HoldsObjects(text, spans[0].end, spans[1..])
    ensures IsObjectAt(text, spans[0].start, spans[0].end)
    ensures Price(text, i, spans) == spans[0].end - spans[0].start + Price(text, spans[0].end, spans[1..])
    ensures Opening(text, i, spans) == Opening(text, spans[0].end, spans[1..])
  {
  }

  /** What an object leaves for the rest of the run. */
  lemma AfterObject<T>(text: string, decode: nat -> Decoded<T>, limit: int, memory: Memory, tracker: Tracker, i: nat,
                       spans: seq<Span>, after: Memory, rest: Outcome<T>, price: nat)
    requires Agrees(text, memory) && spans != [] && DecodesEach(decode, spans)
    requires NextBrace(text, i) == spans[0].start < spans[0].end && IsObjectAt(text, spans[0].start, spans[0].end)
    requires IsOpenBrace(text, spans[0].start) && after == Find(text, limit, memory, spans[0].start).1
    requires memory.work + spans[0].end - spans[0].start + price < limit && Agrees(text, after)
    requires rest == Loop(text, decode, limit, after, tracker.Reset(), spans[0].end)
    requires ReturnsAll(rest, decode, spans[1..], after.work, price)
    ensures ReturnsAll(Loop(text, decode, limit, memory, tracker, i), decode, spans, memory.work,
                       spans[0].end - spans[0].start + price)
  {
    assert spans[0] in spans;
    ObjectIsSearched(text, limit, memory, spans[0]);
    LoopTakesObject(text, decode, limit, memory, tracker, i, spans[0]);
    OneMoreObject(Loop(text, decode, limit, memory, tracker, i), rest, decode, spans, memory.work, after.work, price);
  }

  lemma PriceOfProse(text: string, i: nat, spans: seq<Span>)
    requires HoldsObjects(text, i, spans) && NextBrace(text, i) != NOT_FOUND && !StartsAt(spans, NextBrace(text, i))
    ensures
      var start := NextBrace(text, i);
      && PlainEnd(text, start) == NOT_FOUND && HoldsObjects(text, start + 1, spans)
      && Price(text, i, spans) == ProsePrice(text, start) + Price(text, start + 1, spans)
      && Opening(text, i, spans) == Opening(text, start + 1, spans) + if OpensAnObject(text, start) then 1 else 0
  {
  }

  lemma NoBraceReturnsNothing<T>(text: string, decode: nat -> Decoded<T>, limit: int, memory: Memory,
                                 tracker: Tracker, i: nat, price: nat)
    requires Agrees(text, memory) && NextBrace(text, i) == NOT_FOUND
    ensures ReturnsAll(Loop(text, decode, limit, memory, tracker, i), decode, [], memory.work, price)
  {
  }

  ghost predicate IsPaidFor<T>(text: string, decode: nat -> Decoded<T>, limit: int, memory: Memory, i: nat,
                               spans: seq<Span>)
  {
    && Agrees(text, memory) && HoldsObjects(text, i, spans) && DecodesEach(decode, spans)
    && memory.work + Price(text, i, spans) < limit
  }

  lemma ObjectIsPaidFor<T>(text: string, decode: nat -> Decoded<T>, limit: int, memory: Memory, i: nat,
                           spans: seq<Span>) returns (after: Memory)
    requires IsPaidFor(text, decode, limit, memory, i, spans)
    requires NextBrace(text, i) != NOT_FOUND && StartsAt(spans, NextBrace(text, i))
    ensures IsOpenBrace(text, spans[0].start) && after == Find(text, limit, memory, spans[0].start).1
    ensures IsPaidFor(text, decode, limit, after, spans[0].end, spans[1..])
  {
    PriceOfObject(text, i, spans);
    assert spans[0] in spans;
    ObjectIsSearched(text, limit, memory, spans[0]);
    DecodingsConsed(decode, spans);
    after := Find(text, limit, memory, spans[0].start).1;
  }

  lemma ProseIsPaidFor<T>(text: string, decode: nat -> Decoded<T>, limit: int, memory: Memory, tracker: Tracker,
                          i: nat, spans: seq<Span>) returns (after: Memory)
    requires IsPaidFor(text, decode, limit, memory, i, spans)
    requires NextBrace(text, i) != NOT_FOUND && !StartsAt(spans, NextBrace(text, i))
    ensures after == Find(text, limit, memory, NextBrace(text, i)).1
    ensures IsPaidFor(text, decode, limit, after, NextBrace(text, i) + 1, spans)
  {
    PriceOfProse(text, i, spans);
    LoopPassesProse(text, decode, limit, memory, tracker, i, NextBrace(text, i));
    after := Find(text, limit, memory, NextBrace(text, i)).1;
  }

  lemma ReturnsAllLater<T>(r: Outcome<T>, decode: nat -> Decoded<T>, spans: seq<Span>, work: int, workAfter: int,
                           price: nat, more: nat)
    requires ReturnsAll(r, decode, spans, workAfter, price) && workAfter <= work + more
    ensures ReturnsAll(r, decode, spans, work, more + price)
  {
  }

  /** What a brace of the prose leaves for the rest of the run. */
  lemma AfterProse<T>(text: string, decode: nat -> Decoded<T>, limit: int, memory: Memory, tracker: Tracker, i: nat,
                      spans: seq<Span>, start: nat, after: Memory)
    requires IsPaidFor(text, decode, limit, memory, i, spans)
    requires NextBrace(text, i) == start && !StartsAt(spans, start)
    requires after == Find(text, limit, memory, start).1 && Agrees(text, after)
    requires ReturnsAll(Loop(text, decode, limit, after, tracker, start + 1), decode, spans, after.work,
                        Price(text, start + 1, spans))
    ensures ReturnsAll(Loop(text, decode, limit, memory, tracker, i), decode, spans, memory.work, Price(text, i, spans))
  {
    PriceOfProse(text, i, spans);
    LoopPassesProse(text, decode, limit, memory, tracker, i, start);
    ReturnsAllLater(Loop(text, decode, limit, memory, tracker, i), decode, spans, memory.work, after.work,
                    Price(text, start + 1, spans), ProsePrice(text, start));
  }

  /** Every object of the text comes back, in order and with nothing else, and the whole run reads
    each object at most once, if the limit is above the price of the text. */
  lemma {:induction false} EveryObjectIsReturned<T>(text: string, decode: nat -> Decoded<T>, limit: int,
                                                    memory: Memory, tracker: Tracker, i: nat, spans: seq<Span>)
    requires IsPaidFor(text, decode, limit, memory, i, spans)
    ensures ReturnsAll(Loop(text, decode, limit, memory, tracker, i), decode, spans, memory.work, Price(text, i, spans))
    decreases |text| - i, 1
  {
    if NextBrace(text, i) == NOT_FOUND {
      NoBraceReturnsNothing(text, decode, limit, memory, tracker, i, Price(text, i, spans));
    } else if StartsAt(spans, NextBrace(text, i)) {
      ObjectIsReturned(text, decode, limit, memory, tracker, i, spans);
    } else {
      ProseIsPassed(text, decode, limit, memory, tracker, i, spans);
    }
  }

  lemma {:induction false} ObjectIsReturned<T>(text: string, decode: nat -> Decoded<T>, limit: int,
                                               memory: Memory, tracker: Tracker, i: nat, spans: seq<Span>)
    requires IsPaidFor(text, decode, limit, memory, i, spans)
    requires NextBrace(text, i) != NOT_FOUND && StartsAt(spans, NextBrace(text, i))
    ensures ReturnsAll(Loop(text, decode, limit, memory, tracker, i), decode, spans, memory.work, Price(text, i, spans))
    decreases |text| - i, 0
  {
    PriceOfObject(text, i, spans);
    var after := ObjectIsPaidFor(text, decode, limit, memory, i, spans);
    EveryObjectIsReturned(text, decode, limit, after, tracker.Reset(), spans[0].end, spans[1..]);
    AfterObject(text, decode, limit, memory, tracker, i, spans, after,
                Loop(text, decode, limit, after, tracker.Reset(), spans[0].end),
                Price(text, spans[0].end, spans[1..]));
  }

  lemma {:induction false} ProseIsPassed<T>(text: string, decode: nat -> Decoded<T>, limit: int,
                                            memory: Memory, tracker: Tracker, i: nat, spans: seq<Span>)
    requires IsPaidFor(text, decode, limit, memory, i, spans)
    requires NextBrace(text, i) != NOT_FOUND && !StartsAt(spans, NextBrace(text, i))
    ensures ReturnsAll(Loop(text, decode, limit, memory, tracker, i), decode, spans, memory.work, Price(text, i, spans))
    decreases |text| - i, 0
  {
    var after := ProseIsPaidFor(text, decode, limit, memory, tracker, i, spans);
    EveryObjectIsReturned(text, decode, limit, after, tracker, NextBrace(text, i) + 1, spans);
    AfterProse(text, decode, limit, memory, tracker, i, spans, NextBrace(text, i), after);
  }

  /** The length of `passes` passes over the text. */
  function Passes(passes: nat, length: nat): nat {
    if passes == 0 then 0 else length + Passes(passes - 1, length)
  }

  lemma {:induction false} PassesBelow(passes: nat, most: nat, length: nat)
    requires passes <= most
    ensures Passes(passes, length) <= Passes(most, length)
  {
    if passes < most {
      PassesBelow(passes, most - 1, length);
    }
  }

  lemma EightPasses(length: nat)
    ensures Passes(8, length) == 8 * length
  {
    assert Passes(1, length) == length;
    assert Passes(3, length) == 3 * length;
    assert Passes(5, length) == 5 * length;
    assert Passes(7, length) == 7 * length;
  }

  lemma OneMorePass(passes: nat, length: nat)
    ensures Passes(passes + 1, length) == length + Passes(passes, length)
  {
  }

  lemma ObjectFits(text: string, start: nat, end: nat)
    requires IsObjectAt(text, start, end)
    ensures start < end <= |text|
  {
    ObjectEndIsFound(text, start, end);
  }

  /** The price is at most what is left of the text, and a pass for each brace of the prose that the filter
    lets through. */
  predicate IsWithin(price: int, left: int, passes: nat, length: nat) {
    price <= Max(0, left) + Passes(passes, length)
  }

  lemma StepWithin(step: nat, price: nat, left: nat, passes: nat, length: nat)
    requires IsWithin(price, left - step, passes, length) && step <= left
    ensures IsWithin(step + price, left, passes, length)
  {
  }

  lemma PassWithin(price: nat, cost: nat, left: nat, passes: nat, length: nat)
    requires IsWithin(price, left - 1, passes, length) && 1 <= left && cost <= length
    ensures IsWithin(cost + price, left, passes + 1, length)
  {
    OneMorePass(passes, length);
  }

  lemma ProseWithin(price: nat, cost: nat, opens: bool, left: nat, earlier: nat, passes: nat, length: nat)
    requires IsWithin(price, left - 1, passes, length) && 1 <= left <= length && left <= earlier
    requires cost == if opens then left else 0
    ensures IsWithin(cost + price, earlier, passes + if opens then 1 else 0, length)
  {
    if opens {
      PassWithin(price, cost, left, passes, length);
    }
  }

  lemma LessIsWithin(price: nat, left: int, earlier: int, passes: nat, length: nat)
    requires IsWithin(price, left, passes, length) && left <= earlier
    ensures IsWithin(price, earlier, passes, length)
  {
  }

  /** The objects fit into the text, and each brace of the prose that the filter lets through costs at
    most one more pass. */
  lemma {:induction false} PriceIsBounded(text: string, i: nat, spans: seq<Span>)
    requires HoldsObjects(text, i, spans)
    ensures IsWithin(Price(text, i, spans), |text| - i, Opening(text, i, spans), |text|)
    decreases |text| - i, 1
  {
    if NextBrace(text, i) != NOT_FOUND {
      if StartsAt(spans, NextBrace(text, i)) {
        PriceOfObjectIsBounded(text, i, spans);
      } else {
        PriceOfProseIsBounded(text, i, spans, NextBrace(text, i));
      }
    }
  }

  lemma {:induction false} PriceOfObjectIsBounded(text: string, i: nat, spans: seq<Span>)
    requires HoldsObjects(text, i, spans) && NextBrace(text, i) != NOT_FOUND && StartsAt(spans, NextBrace(text, i))
    ensures IsWithin(Price(text, i, spans), |text| - i, Opening(text, i, spans), |text|)
    decreases |text| - i, 0
  {
    PriceOfObject(text, i, spans);
    var start, end, rest := spans[0].start, spans[0].end, spans[1..];
    ObjectFits(text, start, end);
    PriceIsBounded(text, end, rest);
    var price, passes := Price(text, end, rest), Opening(text, end, rest);
    StepWithin(end - start, price, |text| - start, passes, |text|);
    LessIsWithin(end - start + price, |text| - start, |text| - i, passes, |text|);
  }

  lemma ProseUnfolds(text: string, i: nat, spans: seq<Span>, start: nat)
    requires NextBrace(text, i) == start && !StartsAt(spans, start)
    ensures Price(text, i, spans) == ProsePrice(text, start) + Price(text, start + 1, spans)
    ensures Opening(text, i, spans) == Opening(text, start + 1, spans) + if OpensAnObject(text, start) then 1 else 0
  {
  }

  lemma ProseStep(text: string, i: nat, spans: seq<Span>, start: nat)
    requires NextBrace(text, i) == start && !StartsAt(spans, start)
    requires IsWithin(Price(text, start + 1, spans), |text| - start - 1, Opening(text, start + 1, spans), |text|)
    ensures IsWithin(Price(text, i, spans), |text| - i, Opening(text, i, spans), |text|)
  {
    ProseUnfolds(text, i, spans, start);
    ProseWithin(Price(text, start + 1, spans), ProsePrice(text, start), OpensAnObject(text, start), |text| - start,
                |text| - i, Opening(text, start + 1, spans), |text|);
  }

  lemma {:induction false} PriceOfProseIsBounded(text: string, i: nat, spans: seq<Span>, start: nat)
    requires HoldsObjects(text, i, spans) && NextBrace(text, i) == start && !StartsAt(spans, start)
    ensures IsWithin(Price(text, i, spans), |text| - i, Opening(text, i, spans), |text|)
    decreases |text| - i, 0
  {
    PriceOfProse(text, i, spans);
    PriceIsBounded(text, start + 1, spans);
    ProseStep(text, i, spans, start);
  }

  /** With the default limit and a fresh counter the limit is not in the way, unless more than eight
    braces of the prose look like the start of an object and close nothing. */
  lemma DefaultLimitReturnsEveryObject<T>(text: string, decode: nat -> Decoded<T>, tracker: Tracker, spans: seq<Span>)
    requires HoldsObjects(text, 0, spans) && DecodesEach(decode, spans)
    requires Opening(text, 0, spans) <= 8
    ensures Loop(text, decode, WorkLimit(text, None), Memory(map[], {}, 0), tracker, 0).found
         == Decodings(decode, spans)
  {
    PriceIsBounded(text, 0, spans);
    PassesBelow(Opening(text, 0, spans), 8, |text|);
    EightPasses(|text|);
    EveryObjectIsReturned(text, decode, WorkLimit(text, None), Memory(map[], {}, 0), tracker, 0, spans);
  }
}
