/** A quiet thread is read to its end: how many polls it takes, and when the cursor moves on.

  Quiet means that no comment is added, no listing fails and every comment gets a definite no. */
module ReplyProgress {
  import opened Wrappers
  import opened CommentThread
  import opened ReplyPoller
  import opened ReplyCoverage

  ghost predicate RejectsAll(verdict: Comment -> Verdict, cs: seq<Comment>) {
    forall i | 0 <= i < |cs| :: verdict(cs[i]).Rejected?
  }

  /** What a poll knows is at least the cursor and no later than comment `last`. */
  ghost predicate KnowsUpTo(c: Cursor, p: Progress, time: int) {
    && c.since <= p.latestTime <= time
    && (c.lastId.Some? ==> p.latestId.Some? && c.lastId.value <= p.latestId.value)
  }

  ghost predicate EndsWith(c: Cursor, p: Progress, last: Comment) {
    && KnowsUpTo(c, p, last.created)
    && p.latestTime == last.created
    && p.latestId.Some? && last.id <= p.latestId.value
  }

  /** Nothing stops a scan of rejected comments, and it ends at the last one. */
  lemma {:induction false} ScanGoesThrough(cs: seq<Comment>, c: Cursor, verdict: Comment -> Verdict, p: Progress)
    requires cs != [] && RejectsAll(verdict, cs)
    requires KnowsUpTo(c, p, cs[0].created)
    requires forall i | 0 <= i < |cs| - 1 :: Before(cs[i], cs[i + 1])
    ensures
      var (p', stop) := ScanComments(cs, c, verdict, p);
      stop.Continue? && EndsWith(c, p', cs[|cs| - 1])
    decreases |cs|
  {
    var rest := cs[1..];
    var p1 := if Skips(c, cs[0]) then p else p.With(cs[0]);
    assert EndsWith(c, p1, cs[0]);
    if rest != [] {
      assert Before(cs[0], cs[0 + 1]);
      forall i | 0 <= i < |rest| - 1
        ensures Before(rest[i], rest[i + 1])
      {
        assert Before(cs[i + 1], cs[i + 1 + 1]);
      }
      ScanGoesThrough(rest, c, verdict, p1);
    }
  }

  /** The poll may start listing at `page`: the comments there are no older than what it knows. */
  ghost predicate MayList(thread: Thread, c: Cursor, page: nat, p: Progress) {
    && page >= 1
    && var at := PageStart(thread, c.since, page);
    KnowsUpTo(c, p, if at < |thread| then thread[at].created else p.latestTime)
  }

  lemma SliceIsQuiet(thread: Thread, verdict: Comment -> Verdict, at: nat, cs: seq<Comment>)
    requires Ordered(thread) && RejectsAll(verdict, thread)
    requires at + |cs| <= |thread| && cs == thread[at..at + |cs|]
    ensures RejectsAll(verdict, cs)
    ensures forall i | 0 <= i < |cs| - 1 :: Before(cs[i], cs[i + 1])
  {
    forall i | 0 <= i < |cs|
      ensures verdict(cs[i]).Rejected?
    {
      assert cs[i] == thread[at + i];
    }
    forall i | 0 <= i < |cs| - 1
      ensures Before(cs[i], cs[i + 1])
    {
      assert Before(thread[at + i], thread[at + i + 1]);
    }
  }

  /** The scan of a quiet page that is not empty goes through and ends at its last comment. */
  lemma QuietScan(thread: Thread, c: Cursor, verdict: Comment -> Verdict, page: nat, p: Progress)
    returns (p': Progress)
    requires Ordered(thread) && RejectsAll(verdict, thread) && MayList(thread, c, page, p)
    requires PageStart(thread, c.since, page) < |thread|
    ensures
      var at, cs := PageStart(thread, c.since, page), Page(thread, c.since, page);
      && cs != [] && at + |cs| <= |thread|
      && ScanComments(cs, c, verdict, p) == (p', Stop.Continue) && EndsWith(c, p', thread[at + |cs| - 1])
  {
    var at, cs := PageStart(thread, c.since, page), Page(thread, c.since, page);
    PageIsSlice(thread, c.since, page);
    SliceIsQuiet(thread, verdict, at, cs);
    assert cs[0] == thread[at] && cs[|cs| - 1] == thread[at + |cs| - 1];
    ScanGoesThrough(cs, c, verdict, p);
    p' := ScanComments(cs, c, verdict, p).0;
  }

  /** One quiet page. An empty or short one ends the poll; a full one leads to the next. */
  lemma QuietPage(thread: Thread, rest: seq<Listing>, c: Cursor, verdict: Comment -> Verdict, page: nat,
                  p: Progress, next: Option<Cursor>) returns (p': Progress)
    requires Ordered(thread) && RejectsAll(verdict, thread) && MayList(thread, c, page, p)
    ensures
      var at := PageStart(thread, c.since, page);
      var r := PollPages([Listed(thread)] + rest, c, verdict, page, p, next);
      (&& (at >= |thread| ==> r == PollResult(Some(FirstPageCursor(p)), p.examined, Continue))
       && (at < |thread| < at + PER_PAGE ==>
             r.next == Some(FirstPageCursor(p')) && EndsWith(c, p', thread[|thread| - 1]))
       && (at + PER_PAGE <= |thread| ==>
             && r == PollPages(rest, c, verdict, page + 1, p', Some(Cursor(page + 1, c.since, p'.latestId)))
             && MayList(thread, c, page + 1, p') && EndsWith(c, p', thread[at + PER_PAGE - 1])))
  {
    p' := p;
    var at := PageStart(thread, c.since, page);
    PageIsSlice(thread, c.since, page);
    assert ([Listed(thread)] + rest)[1..] == rest;
    if at < |thread| {
      p' := QuietScan(thread, c, verdict, page, p);
      assert at + PER_PAGE < |thread| ==> Before(thread[at + PER_PAGE - 1], thread[at + PER_PAGE]);
    }
  }

  // ----- One quiet poll

  function Quiet(thread: Thread, verdict: Comment -> Verdict): PollEvent {
    PollEvent([Listed(thread), Listed(thread)], verdict, true)
  }

  /** Two full pages move the cursor two pages on; a last, not empty part moves it to the last comment
    and back to page one; an empty page moves it back to page one only. */
  ghost predicate QuietlyMoves(thread: Thread, c: Cursor, r': Reader) {
    && c.page >= 1
    && r'.cursor.Some?
    && var at, c' := PageStart(thread, c.since, c.page), r'.cursor.value;
    && (at + 200 <= |thread| ==> c'.page == c.page + 2 && c'.since == c.since)
    && (at < |thread| < at + 200 ==>
          && c'.page == 1 && c'.since == thread[|thread| - 1].created
          && c'.lastId.Some? && thread[|thread| - 1].id <= c'.lastId.value)
    && (at >= |thread| ==> c' == Cursor(1, c.since, c.lastId))
  }

  ghost predicate EndsSweep(thread: Thread, next: Option<Cursor>)
    requires thread != []
  {
    && next.Some? && next.value.page == 1 && next.value.since == thread[|thread| - 1].created
    && next.value.lastId.Some? && thread[|thread| - 1].id <= next.value.lastId.value
  }

  /** The second page of a poll whose first page was full and ended just before `at`. */
  lemma SecondPage(thread: Thread, c: Cursor, verdict: Comment -> Verdict, page: nat, p: Progress, at: nat)
    requires Ordered(thread) && RejectsAll(verdict, thread) && MayList(thread, c, page, p)
    requires at == PageStart(thread, c.since, page) && 0 < at <= |thread| && EndsWith(c, p, thread[at - 1])
    ensures
      var next := PollPages([Listed(thread)], c, verdict, page, p, Some(Cursor(page, c.since, p.latestId))).next;
      && (at + PER_PAGE <= |thread| ==> next.Some? && next.value.page == page + 1 && next.value.since == c.since)
      && (|thread| < at + PER_PAGE ==> EndsSweep(thread, next))
  {
    assert [Listed(thread)] + [] == [Listed(thread)];
    var p' := QuietPage(thread, [], c, verdict, page, p, Some(Cursor(page, c.since, p.latestId)));
  }

  lemma QuietPages(thread: Thread, c: Cursor, verdict: Comment -> Verdict, p: Progress, one: seq<Listing>)
    requires Ordered(thread) && RejectsAll(verdict, thread) && MayList(thread, c, c.page, p)
    requires one == [Listed(thread)]
    ensures
      var at := PageStart(thread, c.since, c.page);
      var next := PollPages([Listed(thread)] + one, c, verdict, c.page, p, None).next;
      && (at + 200 <= |thread| ==> next.Some? && next.value.page == c.page + 2 && next.value.since == c.since)
      && (at < |thread| < at + 200 ==> EndsSweep(thread, next))
      && (at >= |thread| ==> next == Some(FirstPageCursor(p)))
  {
    var at := PageStart(thread, c.since, c.page);
    var p' := QuietPage(thread, one, c, verdict, c.page, p, None);
    if at + PER_PAGE <= |thread| {
      SecondPage(thread, c, verdict, c.page + 1, p', at + PER_PAGE);
    }
  }

  lemma QuietPollMoves(thread: Thread, notifiedAt: int, verdict: Comment -> Verdict, r: Reader)
    requires Ordered(thread) && RejectsAll(verdict, thread)
    ensures QuietlyMoves(thread, Start(r.cursor, notifiedAt), AfterPoll(r, notifiedAt, Quiet(thread, verdict)))
  {
    var c := Start(r.cursor, notifiedAt);
    var at, first := PageStart(thread, c.since, c.page), First(thread, c.since);
    assert at < |thread| && first < at ==> Before(thread[first], thread[at]);
    assert [Listed(thread)] + [Listed(thread)] == [Listed(thread), Listed(thread)];
    QuietPages(thread, c, verdict, Progress(c.lastId, c.since, r.examined), [Listed(thread)]);
  }

  // ----- A whole sweep

  function QuietPolls(thread: Thread, verdict: Comment -> Verdict, k: nat): seq<PollEvent> {
    seq(k, _ => Quiet(thread, verdict))
  }

  lemma {:induction false} OneMorePoll(r: Reader, notifiedAt: int, thread: Thread, verdict: Comment -> Verdict, k: nat)
    ensures AfterPolls(r, notifiedAt, QuietPolls(thread, verdict, k + 1))
         == AfterPoll(AfterPolls(r, notifiedAt, QuietPolls(thread, verdict, k)), notifiedAt, Quiet(thread, verdict))
    decreases k
  {
    assert QuietPolls(thread, verdict, k + 1)[1..] == QuietPolls(thread, verdict, k);
    if k > 0 {
      assert QuietPolls(thread, verdict, k)[1..] == QuietPolls(thread, verdict, k - 1);
      OneMorePoll(AfterPoll(r, notifiedAt, Quiet(thread, verdict)), notifiedAt, thread, verdict, k - 1);
    }
  }

  /** `k` polls of two full pages each. */
  lemma {:induction false} FullPolls(thread: Thread, notifiedAt: int, verdict: Comment -> Verdict, r: Reader, k: nat)
    requires Ordered(thread) && RejectsAll(verdict, thread)
    requires
      var c := Start(r.cursor, notifiedAt);
      PageStart(thread, c.since, c.page) + 200 * k <= |thread|
    ensures
      var c := Start(r.cursor, notifiedAt);
      var c' := Start(AfterPolls(r, notifiedAt, QuietPolls(thread, verdict, k)).cursor, notifiedAt);
      c'.page == c.page + 2 * k && c'.since == c.since
    decreases k
  {
    if k > 0 {
      FullPolls(thread, notifiedAt, verdict, r, k - 1);
      OneMorePoll(r, notifiedAt, thread, verdict, k - 1);
      QuietPollMoves(thread, notifiedAt, verdict, AfterPolls(r, notifiedAt, QuietPolls(thread, verdict, k - 1)));
    }
  }

  /** The polls that a listing of `n` comments takes: a page holds 100, a poll two pages. */
  function Polls(n: nat): nat {
    ((n + 99) / 100 + 1) / 2
  }

  function CursorAfter(thread: Thread, notifiedAt: int, verdict: Comment -> Verdict, r: Reader, k: nat): (c: Cursor)
    ensures c.page >= 1
  {
    Start(AfterPolls(r, notifiedAt, QuietPolls(thread, verdict, k)).cursor, notifiedAt)
  }

  /** After `k` full polls and, for `rest` more comments, one more: comment `i` is behind the cursor. */
  lemma SweepPasses(thread: Thread, notifiedAt: int, verdict: Comment -> Verdict, r: Reader, k: nat, rest: nat, i: nat)
    requires Ordered(thread) && RejectsAll(verdict, thread)
    requires rest < 200 && i < |thread|
    requires
      var c := Start(r.cursor, notifiedAt);
      PageStart(thread, c.since, c.page) + 200 * k + rest == |thread|
    ensures Behind(thread, CursorAfter(thread, notifiedAt, verdict, r, if rest == 0 then k else k + 1), i)
  {
    FullPolls(thread, notifiedAt, verdict, r, k);
    if rest != 0 {
      OneMorePoll(r, notifiedAt, thread, verdict, k);
      QuietPollMoves(thread, notifiedAt, verdict, AfterPolls(r, notifiedAt, QuietPolls(thread, verdict, k)));
      assert i == |thread| - 1 || Before(thread[i], thread[|thread| - 1]);
    }
  }

  lemma QuietPollsShow(thread: Thread, verdict: Comment -> Verdict, k: nat)
    ensures AllShow(QuietPolls(thread, verdict, k), thread)
  {
    assert PollShows(Quiet(thread, verdict), thread);
  }

  /** After any sequence of polls, if the thread then stays quiet, every comment since the notice is
    examined within the polls that the listing from the cursor's page on takes. */
  lemma QuietThreadIsRead(thread: Thread, notifiedAt: int, es: seq<PollEvent>, verdict: Comment -> Verdict,
                          n: nat, i: nat)
    requires Ordered(thread) && RejectsAll(verdict, thread)
    requires AllShow(es, thread)
    requires
      var c := Start(AfterPolls(Reader(None, {}), notifiedAt, es).cursor, notifiedAt);
      PageStart(thread, c.since, c.page) + n == |thread|
    requires i < |thread| && thread[i].created >= notifiedAt
    ensures
      var r := AfterPolls(Reader(None, {}), notifiedAt, es);
      thread[i].id in AfterPolls(r, notifiedAt, QuietPolls(thread, verdict, Polls(n))).examined
  {
    var r := AfterPolls(Reader(None, {}), notifiedAt, es);
    var d := PollsExtendDone(thread, notifiedAt, Reader(None, {}), es, 0);
    PollsNeeded(n);
    QuietPollsShow(thread, verdict, Polls(n));
    SweepPasses(thread, notifiedAt, verdict, r, n / 200, n % 200, i);
    BehindIsExamined(thread, notifiedAt, r, QuietPolls(thread, verdict, Polls(n)), d, i);
  }

  lemma BehindIsExamined(thread: Thread, notifiedAt: int, r: Reader, es: seq<PollEvent>, d: nat, i: nat)
    requires Ordered(thread) && ReaderWithin(thread, notifiedAt, r, d)
    requires AllShow(es, thread)
    requires i < |thread| && thread[i].created >= notifiedAt
    requires Behind(thread, Start(AfterPolls(r, notifiedAt, es).cursor, notifiedAt), i)
    ensures thread[i].id in AfterPolls(r, notifiedAt, es).examined
  {
    var d' := PollsExtendDone(thread, notifiedAt, r, es, d);
    BehindIsDone(thread, notifiedAt, Start(AfterPolls(r, notifiedAt, es).cursor, notifiedAt), d', i);
  }

  lemma PollsNeeded(n: nat)
    ensures n == 200 * (n / 200) + n % 200
    ensures Polls(n) == if n % 200 == 0 then n / 200 else n / 200 + 1
  {
  }

  /** A listing of 200 * k + rest comments, from page one: after k + 1 polls the sweep is back at page
    one. With a rest the cursor has the time of the last comment. After a multiple of 200 the last poll
    lists an empty page and the cursor keeps the time it had, so the next sweep starts over with the same
    comments. */
  lemma SweepMovesTime(thread: Thread, notifiedAt: int, verdict: Comment -> Verdict, r: Reader, k: nat, rest: nat)
    requires Ordered(thread) && RejectsAll(verdict, thread) && rest < 200
    requires
      var c := Start(r.cursor, notifiedAt);
      c.page == 1 && First(thread, c.since) + 200 * k + rest == |thread|
    ensures
      var c' := CursorAfter(thread, notifiedAt, verdict, r, k + 1);
      && c'.page == 1
      && c'.since == if rest == 0 then Start(r.cursor, notifiedAt).since else thread[|thread| - 1].created
  {
    FullPolls(thread, notifiedAt, verdict, r, k);
    OneMorePoll(r, notifiedAt, thread, verdict, k);
    QuietPollMoves(thread, notifiedAt, verdict, AfterPolls(r, notifiedAt, QuietPolls(thread, verdict, k)));
  }
}
