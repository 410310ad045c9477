/** No comment is lost: over any sequence of polls, a comment the cursor has passed was examined. */
module ReplyCoverage {
  import opened Wrappers
  import opened CommentThread
  import opened ReplyPoller

  ghost predicate Before(a: Comment, b: Comment) {
    a.id < b.id && a.created <= b.created
  }

  ghost predicate Ordered(thread: Thread) {
    forall i, j {:trigger Before(thread[i], thread[j])} | 0 <= i < j < |thread| :: Before(thread[i], thread[j])
  }

  /** The index of the first comment created at or after `since`. */
  function First(thread: Thread, since: int): (first: nat)
    ensures first <= |thread|
    ensures forall i | 0 <= i < first :: thread[i].created < since
    ensures first < |thread| ==> thread[first].created >= since
  {
    if thread == [] || thread[0].created >= since then 0 else 1 + First(thread[1..], since)
  }

  lemma {:induction false} AllCreatedSince(thread: Thread, since: int)
    requires forall i | 0 <= i < |thread| :: thread[i].created >= since
    ensures CreatedSince(thread, since) == thread
  {
    if thread != [] {
      AllCreatedSince(thread[1..], since);
    }
  }

  lemma TailIsOrdered(thread: Thread)
    requires Ordered(thread) && thread != []
    ensures Ordered(thread[1..])
  {
    var tail := thread[1..];
    forall i, j | 0 <= i < j < |tail|
      ensures Before(tail[i], tail[j])
    {
      assert Before(thread[i + 1], thread[j + 1]);
    }
  }

  /** In an ordered thread a listing is a tail of the thread. */
  lemma {:induction false} ListingIsTail(thread: Thread, since: int)
    requires Ordered(thread)
    ensures CreatedSince(thread, since) == thread[First(thread, since)..]
  {
    if thread != [] {
      if thread[0].created >= since {
        assert forall i | 0 < i < |thread| :: Before(thread[0], thread[i]);
        AllCreatedSince(thread, since);
      } else {
        TailIsOrdered(thread);
        ListingIsTail(thread[1..], since);
      }
    }
  }

  /** Where a page starts in the thread. */
  function PageStart(thread: Thread, since: int, page: nat): nat
    requires page >= 1
  {
    First(thread, since) + (page - 1) * 100
  }

  lemma PageIsSlice(thread: Thread, since: int, page: nat)
    requires Ordered(thread) && page >= 1
    ensures
      var at := PageStart(thread, since, page);
      var cs := Page(thread, since, page);
      && (at >= |thread| ==> cs == [])
      && (at < |thread| ==> cs != [] && at + |cs| <= |thread| && cs == thread[at..at + |cs|])
      && (|cs| < PER_PAGE && at < |thread| ==> at + |cs| == |thread|)
  {
    ListingIsTail(thread, since);
    var listed, from, cs := CreatedSince(thread, since), (page - 1) * 100, Page(thread, since, page);
    assert |listed| == |thread| - First(thread, since);
    if from < |listed| {
      assert cs == listed[from..from + |cs|];
    }
  }

  // ----- What is done

  /** Every comment below index `d` that was not created before the notice was examined. */
  ghost predicate DoneBelow(thread: Thread, notifiedAt: int, examined: set<int>, d: nat) {
    d <= |thread| && forall i | 0 <= i < d :: thread[i].created >= notifiedAt ==> thread[i].id in examined
  }

  /** The latest time and id a poll holds are those of comments below index `d`. */
  ghost predicate Within(thread: Thread, notifiedAt: int, latestId: Option<int>, latestTime: int, d: nat) {
    && d <= |thread|
    && notifiedAt <= latestTime
    && (latestTime == notifiedAt || exists i | 0 <= i < d :: thread[i].created == latestTime)
    && (latestId.Some? ==> exists i | 0 <= i < d :: thread[i].id == latestId.value)
  }

  /** The cursor's time and last id are within the done part, and so are the pages before its own. */
  ghost predicate CursorWithin(thread: Thread, notifiedAt: int, c: Cursor, d: nat) {
    && c.page >= 1
    && Within(thread, notifiedAt, c.lastId, c.since, d)
    && (c.page > 1 ==> PageStart(thread, c.since, c.page) <= d)
  }

  /** The next poll from this cursor does not look at comment `i` any more. */
  ghost predicate Behind(thread: Thread, c: Cursor, i: nat)
    requires i < |thread| && c.page >= 1
  {
    thread[i].created < c.since || Skips(c, thread[i]) || i < PageStart(thread, c.since, c.page)
  }

  lemma BehindIsDone(thread: Thread, notifiedAt: int, c: Cursor, d: nat, i: nat)
    requires Ordered(thread) && CursorWithin(thread, notifiedAt, c, d)
    requires i < |thread| && Behind(thread, c, i) && thread[i].created >= notifiedAt
    ensures i < d
  {
    assert forall j | 0 <= j < d && d <= i :: Before(thread[j], thread[i]);
  }

  /** One examined comment. */
  lemma DoneAfter(thread: Thread, notifiedAt: int, p: Progress, at: nat, d: nat, d1: nat)
    requires at < |thread| && at <= d && d1 == if d > at then d else at + 1
    requires DoneBelow(thread, notifiedAt, p.examined, d)
    requires Within(thread, notifiedAt, p.latestId, p.latestTime, d)
    ensures
      var p1 := p.With(thread[at]);
      && DoneBelow(thread, notifiedAt, p1.examined, d1)
      && Within(thread, notifiedAt, p1.latestId, p1.latestTime, d1)
  {
    var p1 := p.With(thread[at]);
    assert p1.latestTime == p.latestTime || p1.latestTime == thread[at].created;
    assert p1.latestId == p.latestId || p1.latestId == Some(thread[at].id);
  }

  ghost predicate ScanLeaves(thread: Thread, notifiedAt: int, p: Progress, p': Progress, d: nat) {
    && p.examined <= p'.examined
    && DoneBelow(thread, notifiedAt, p'.examined, d)
    && Within(thread, notifiedAt, p'.latestId, p'.latestTime, d)
  }

  /** Scanning a slice that starts within the done part extends the done part and stays within it. */
  lemma {:induction false} ScanExtendsDone(thread: Thread, notifiedAt: int, c: Cursor, verdict: Comment -> Verdict,
                                           at: nat, end: nat, p: Progress, d0: nat, d: nat) returns (d': nat)
    requires Ordered(thread) && at <= end <= |thread| && at <= d
    requires CursorWithin(thread, notifiedAt, c, d0) && d0 <= d
    requires DoneBelow(thread, notifiedAt, p.examined, d)
    requires Within(thread, notifiedAt, p.latestId, p.latestTime, d)
    ensures
      var (p', stop) := ScanComments(thread[at..end], c, verdict, p);
      d <= d' && ScanLeaves(thread, notifiedAt, p, p', d') && (stop.Continue? ==> end <= d')
    decreases end - at
  {
    d' := d;
    if at < end {
      var comment := thread[at];
      var cs := thread[at..end];
      assert cs[0] == comment && cs[1..] == thread[at + 1..end];
      var d1 := if d > at then d else at + 1;
      if Skips(c, comment) {
        if comment.created >= notifiedAt {
          BehindIsDone(thread, notifiedAt, c, d0, at);
        }
        d' := ScanExtendsDone(thread, notifiedAt, c, verdict, at + 1, end, p, d0, d1);
      } else if verdict(comment).Rejected? {
        DoneAfter(thread, notifiedAt, p, at, d, d1);
        d' := ScanExtendsDone(thread, notifiedAt, c, verdict, at + 1, end, p.With(comment), d0, d1);
      }
    }
  }

  // ----- One poll

  /** A listing shows the thread as it was at some moment: a prefix of what it is now. */
  ghost predicate Shows(listing: Listing, thread: Thread) {
    listing.Listed? ==> |listing.thread| <= |thread| && listing.thread == thread[..|listing.thread|]
  }

  lemma SliceOfPrefix(shown: Thread, thread: Thread, a: nat, b: nat)
    requires Shows(Listed(shown), thread) && a <= b <= |shown|
    ensures shown[a..b] == thread[a..b]
  {
  }

  lemma PrefixIsOrdered(shown: Thread, thread: Thread)
    requires Shows(Listed(shown), thread) && Ordered(thread)
    ensures Ordered(shown)
  {
    forall i, j | 0 <= i < j < |shown|
      ensures Before(shown[i], shown[j])
    {
      assert Before(thread[i], thread[j]);
    }
  }

  /** A page that is not empty stands at the same place in the thread as it is now. */
  lemma PageInThread(shown: Thread, thread: Thread, since: int, page: nat)
    requires Shows(Listed(shown), thread) && Ordered(thread) && page >= 1
    requires Page(shown, since, page) != []
    ensures
      var at := PageStart(thread, since, page);
      var cs := Page(shown, since, page);
      at + |cs| <= |thread| && cs == thread[at..at + |cs|]
  {
    PrefixIsOrdered(shown, thread);
    PageIsSlice(shown, since, page);
    FirstIsStable(shown, thread, since);
    var at := PageStart(shown, since, page);
    SliceOfPrefix(shown, thread, at, at + |Page(shown, since, page)|);
  }

  lemma FirstIsStable(shown: Thread, thread: Thread, since: int)
    requires Shows(Listed(shown), thread) && First(shown, since) < |shown|
    ensures First(thread, since) == First(shown, since)
  {
    var f, g := First(shown, since), First(thread, since);
    assert thread[f] == shown[f];
    assert g < |shown| ==> shown[g] == thread[g];
  }

  /** Comments from the done part up to `at` are older than the cursor's time, hence older than the
    notice, so the done part reaches `at`. */
  lemma DoneReaches(thread: Thread, notifiedAt: int, c: Cursor, examined: set<int>, page: nat, d0: nat, d: nat)
    requires Ordered(thread) && CursorWithin(thread, notifiedAt, c, d0) && d0 <= d
    requires DoneBelow(thread, notifiedAt, examined, d)
    requires page >= 1 && (page > 1 ==> PageStart(thread, c.since, page) <= d)
    ensures
      var at := PageStart(thread, c.since, page);
      DoneBelow(thread, notifiedAt, examined, if at > d then at else d)
  {
    var at := PageStart(thread, c.since, page);
    if at > d {
      forall i | d <= i < at
        ensures thread[i].created < notifiedAt
      {
        if thread[i].created >= notifiedAt {
          BehindIsDone(thread, notifiedAt, c, d0, i);
          assert false;
        }
      }
    }
  }

  lemma WithinLater(thread: Thread, notifiedAt: int, id: Option<int>, time: int, d: nat, d': nat)
    requires Within(thread, notifiedAt, id, time, d) && d <= d' <= |thread|
    ensures Within(thread, notifiedAt, id, time, d')
  {
  }

  /** A poll in progress, about to list `page`: `d0` was done before it and `d` is done now. */
  ghost predicate PollWithin(thread: Thread, notifiedAt: int, c: Cursor, page: nat, p: Progress,
                             next: Option<Cursor>, d0: nat, d: nat)
  {
    && CursorWithin(thread, notifiedAt, c, d0) && d0 <= d
    && page >= 1 && (page > 1 ==> PageStart(thread, c.since, page) <= d)
    && DoneBelow(thread, notifiedAt, p.examined, d)
    && Within(thread, notifiedAt, p.latestId, p.latestTime, d)
    && (next.Some? ==> CursorWithin(thread, notifiedAt, next.value, d))
  }

  /** A page that is not empty starts, at `at`, where everything below is done. */
  lemma PageStartsDone(thread: Thread, notifiedAt: int, shown: Thread, c: Cursor,
                       page: nat, p: Progress, next: Option<Cursor>, d0: nat, d: nat)
    requires Ordered(thread) && Shows(Listed(shown), thread)
    requires PollWithin(thread, notifiedAt, c, page, p, next, d0, d)
    requires Page(shown, c.since, page) != []
    ensures
      var at := PageStart(thread, c.since, page);
      var cs := Page(shown, c.since, page);
      var d1 := if at > d then at else d;
      && at + |cs| <= |thread| && cs == thread[at..at + |cs|]
      && DoneBelow(thread, notifiedAt, p.examined, d1)
      && Within(thread, notifiedAt, p.latestId, p.latestTime, d1)
  {
    PageInThread(shown, thread, c.since, page);
    DoneReaches(thread, notifiedAt, c, p.examined, page, d0, d);
    var at := PageStart(thread, c.since, page);
    WithinLater(thread, notifiedAt, p.latestId, p.latestTime, d, if at > d then at else d);
  }

  /** The page at `page`, not empty, is scanned. */
  lemma PageExtendsDone(thread: Thread, notifiedAt: int, shown: Thread, c: Cursor, verdict: Comment -> Verdict,
                        page: nat, p: Progress, next: Option<Cursor>, d0: nat, d: nat) returns (d': nat)
    requires Ordered(thread) && Shows(Listed(shown), thread)
    requires PollWithin(thread, notifiedAt, c, page, p, next, d0, d)
    requires Page(shown, c.since, page) != []
    ensures
      var cs := Page(shown, c.since, page);
      var (p', stop) := ScanComments(cs, c, verdict, p);
      (&& d <= d' && ScanLeaves(thread, notifiedAt, p, p', d')
       && (stop.Continue? ==> PageStart(thread, c.since, page) + |cs| <= d'))
  {
    PageStartsDone(thread, notifiedAt, shown, c, page, p, next, d0, d);
    var at := PageStart(thread, c.since, page);
    var end := at + |Page(shown, c.since, page)|;
    d' := ScanExtendsDone(thread, notifiedAt, c, verdict, at, end, p, d0, if at > d then at else d);
  }

  /** After a full page the poll goes on to the next one, and could stop there. */
  lemma NextPageWithin(thread: Thread, notifiedAt: int, c: Cursor, page: nat, p: Progress, d0: nat, d: nat)
    requires CursorWithin(thread, notifiedAt, c, d0) && d0 <= d && page >= 1
    requires DoneBelow(thread, notifiedAt, p.examined, d)
    requires Within(thread, notifiedAt, p.latestId, p.latestTime, d)
    requires PageStart(thread, c.since, page) + PER_PAGE <= d
    ensures PollWithin(thread, notifiedAt, c, page + 1, p, Some(Cursor(page + 1, c.since, p.latestId)), d0, d)
  {
    WithinLater(thread, notifiedAt, c.lastId, c.since, d0, d);
    assert PageStart(thread, c.since, page + 1) == PageStart(thread, c.since, page) + PER_PAGE;
  }

  /** What a poll leaves: more examined comments, a done part that reaches `d`, a cursor within it. */
  ghost predicate Leaves(thread: Thread, notifiedAt: int, before: set<int>, r: PollResult, d: nat) {
    && before <= r.examined
    && DoneBelow(thread, notifiedAt, r.examined, d)
    && (r.next.Some? ==> CursorWithin(thread, notifiedAt, r.next.value, d))
  }

  lemma FirstPageWithin(thread: Thread, notifiedAt: int, p: Progress, d: nat)
    requires Within(thread, notifiedAt, p.latestId, p.latestTime, d)
    ensures CursorWithin(thread, notifiedAt, FirstPageCursor(p), d)
  {
  }

  /** One poll: the done part only grows, and the cursor it leaves, if any, is within it. */
  lemma {:induction false} PagesExtendDone(thread: Thread, notifiedAt: int, listings: seq<Listing>, c: Cursor,
                                           verdict: Comment -> Verdict, page: nat, p: Progress,
                                           next: Option<Cursor>, d0: nat, d: nat) returns (d': nat)
    requires Ordered(thread) && forall n | 0 <= n < |listings| :: Shows(listings[n], thread)
    requires PollWithin(thread, notifiedAt, c, page, p, next, d0, d)
    ensures d <= d'
    ensures Leaves(thread, notifiedAt, p.examined, PollPages(listings, c, verdict, page, p, next), d')
    decreases |listings|
  {
    d' := d;
    if listings == [] || listings[0].ListingError? {
      return;
    }
    var cs := Page(listings[0].thread, c.since, page);
    if cs == [] {
      FirstPageWithin(thread, notifiedAt, p, d);
      return;
    }
    d' := PageExtendsDone(thread, notifiedAt, listings[0].thread, c, verdict, page, p, next, d0, d);
    var (p', stop) := ScanComments(cs, c, verdict, p);
    if stop.Continue? && |cs| == PER_PAGE {
      NextPageWithin(thread, notifiedAt, c, page, p', d0, d');
      d' := PagesExtendDone(thread, notifiedAt, listings[1..], c, verdict, page + 1, p',
                            Some(Cursor(page + 1, c.since, p'.latestId)), d0, d');
    } else {
      FirstPageWithin(thread, notifiedAt, p', d');
    }
  }

  // ----- Any sequence of polls

  /** One poll of a run: what its listings showed, its verdicts, and whether the store still held the
    record it read, so that its cursor was saved. */
  datatype PollEvent = PollEvent(listings: seq<Listing>, verdict: Comment -> Verdict, saved: bool)

  /** The listings of the polls show an append-only thread. */
  ghost predicate AllShow(es: seq<PollEvent>, thread: Thread) {
    forall e | e in es :: PollShows(e, thread)
  }

  ghost predicate PollShows(e: PollEvent, thread: Thread) {
    forall n | 0 <= n < |e.listings| :: Shows(e.listings[n], thread)
  }

  datatype Reader = Reader(cursor: Option<Cursor>, examined: set<int>)

  function AfterPoll(r: Reader, notifiedAt: int, e: PollEvent): Reader {
    var result := Poll(e.listings, r.cursor, notifiedAt, e.verdict, r.examined);
    Reader(if e.saved && result.next.Some? then result.next else r.cursor, result.examined)
  }

  function AfterPolls(r: Reader, notifiedAt: int, es: seq<PollEvent>): Reader
    decreases |es|
  {
    if es == [] then r else AfterPolls(AfterPoll(r, notifiedAt, es[0]), notifiedAt, es[1..])
  }

  ghost predicate ReaderWithin(thread: Thread, notifiedAt: int, r: Reader, d: nat) {
    && DoneBelow(thread, notifiedAt, r.examined, d)
    && (r.cursor.Some? ==> CursorWithin(thread, notifiedAt, r.cursor.value, d))
  }

  lemma {:induction false} PollsExtendDone(thread: Thread, notifiedAt: int, r: Reader, es: seq<PollEvent>, d: nat)
    returns (d': nat)
    requires Ordered(thread) && ReaderWithin(thread, notifiedAt, r, d)
    requires AllShow(es, thread)
    ensures ReaderWithin(thread, notifiedAt, AfterPolls(r, notifiedAt, es), d')
    decreases |es|
  {
    d' := d;
    if es != [] {
      var e := es[0];
      var c := Start(r.cursor, notifiedAt);
      assert e in es && PollShows(e, thread);
      assert CursorWithin(thread, notifiedAt, c, d);
      d' := PagesExtendDone(thread, notifiedAt, e.listings, c, e.verdict, c.page,
                            Progress(c.lastId, c.since, r.examined), None, d, d);
      CursorStaysWithin(thread, notifiedAt, r, d, d');
      d' := PollsExtendDone(thread, notifiedAt, AfterPoll(r, notifiedAt, e), es[1..], d');
    }
  }

  lemma CursorStaysWithin(thread: Thread, notifiedAt: int, r: Reader, d: nat, d': nat)
    requires ReaderWithin(thread, notifiedAt, r, d) && d <= d' <= |thread|
    ensures r.cursor.Some? ==> CursorWithin(thread, notifiedAt, r.cursor.value, d')
  {
  }

  /** Over any sequence of polls of an append-only thread, through page boundaries, listing errors,
    retryable stops, stale saves and new comments between any two listings: a comment that the
    persisted cursor has behind it was examined, unless it is older than the notice. */
  lemma NoCommentIsLost(thread: Thread, notifiedAt: int, es: seq<PollEvent>, i: nat)
    requires Ordered(thread) && i < |thread| && thread[i].created >= notifiedAt
    requires AllShow(es, thread)
    ensures
      var r := AfterPolls(Reader(None, {}), notifiedAt, es);
      Behind(thread, Start(r.cursor, notifiedAt), i) ==> thread[i].id in r.examined
  {
    var d := PollsExtendDone(thread, notifiedAt, Reader(None, {}), es, 0);
    var c := Start(AfterPolls(Reader(None, {}), notifiedAt, es).cursor, notifiedAt);
    if Behind(thread, c, i) {
      assert CursorWithin(thread, notifiedAt, c, d);
      BehindIsDone(thread, notifiedAt, c, d, i);
    }
  }
}
