/** Which reply a poll accepts, and that a thread in which someone replies is read as far as a quiet
  one, or answered. */
module ReplyAcceptance {
  import opened Wrappers
  import opened CommentThread
  import opened ReplyPoller
  import opened ReplyCoverage
  import opened ReplyProgress

  // ----- The first valid reply

  /** Every comment below index `d` is behind the cursor or got a definite no. */
  ghost predicate Settled(thread: Thread, c: Cursor, verdict: Comment -> Verdict, d: nat)
    requires c.page >= 1
  {
    forall i | 0 <= i < d && i < |thread| :: Behind(thread, c, i) || verdict(thread[i]).Rejected?
  }

  ghost predicate IsFirstValid(thread: Thread, c: Cursor, verdict: Comment -> Verdict, reply: Comment)
    requires c.page >= 1
  {
    exists i | 0 <= i < |thread| ::
      thread[i] == reply && !Behind(thread, c, i) && verdict(reply).Valid? && Settled(thread, c, verdict, i)
  }

  lemma {:induction false} ScanFindsFirst(thread: Thread, c: Cursor, verdict: Comment -> Verdict,
                                          at: nat, end: nat, p: Progress)
    requires Ordered(thread) && c.page >= 1 && at <= end <= |thread|
    requires PageStart(thread, c.since, c.page) <= at && Settled(thread, c, verdict, at)
    ensures
      var stop := ScanComments(thread[at..end], c, verdict, p).1;
      && (stop.Continue? ==> Settled(thread, c, verdict, end))
      && (stop.ReplyStop? ==> IsFirstValid(thread, c, verdict, stop.reply))
    decreases end - at
  {
    if at < end {
      var comment := thread[at];
      var cs := thread[at..end];
      assert cs[0] == comment && cs[1..] == thread[at + 1..end];
      if Skips(c, comment) {
        ScanFindsFirst(thread, c, verdict, at + 1, end, p);
      } else if verdict(comment).Rejected? {
        ScanFindsFirst(thread, c, verdict, at + 1, end, p.With(comment));
      } else if verdict(comment).Valid? {
        ListedIsNotOlder(thread, c.since, at);
      }
    }
  }

  lemma ListedIsNotOlder(thread: Thread, since: int, at: nat)
    requires Ordered(thread) && First(thread, since) <= at < |thread|
    ensures thread[at].created >= since
  {
    var first := First(thread, since);
    assert first == at || Before(thread[first], thread[at]);
  }

  lemma PageFindsFirst(thread: Thread, cs: seq<Comment>, c: Cursor, verdict: Comment -> Verdict, page: nat,
                       p: Progress, at: nat)
    requires Ordered(thread) && 1 <= c.page <= page && at == PageStart(thread, c.since, page)
    requires Settled(thread, c, verdict, at)
    requires at + |cs| <= |thread| && cs == thread[at..at + |cs|]
    ensures
      var stop := ScanComments(cs, c, verdict, p).1;
      && (stop.Continue? && |cs| == PER_PAGE ==> Settled(thread, c, verdict, PageStart(thread, c.since, page + 1)))
      && (stop.ReplyStop? ==> IsFirstValid(thread, c, verdict, stop.reply))
  {
    ScanFindsFirst(thread, c, verdict, at, at + |cs|, p);
    assert PageStart(thread, c.since, page + 1) == at + 100;
  }

  lemma ShownPageFindsFirst(thread: Thread, shown: Thread, c: Cursor, verdict: Comment -> Verdict, page: nat,
                            p: Progress)
    requires Ordered(thread) && Shows(Listed(shown), thread) && 1 <= c.page <= page
    requires Settled(thread, c, verdict, PageStart(thread, c.since, page)) && Page(shown, c.since, page) != []
    ensures
      var cs := Page(shown, c.since, page);
      var stop := ScanComments(cs, c, verdict, p).1;
      && (stop.Continue? && |cs| == PER_PAGE ==> Settled(thread, c, verdict, PageStart(thread, c.since, page + 1)))
      && (stop.ReplyStop? ==> IsFirstValid(thread, c, verdict, stop.reply))
  {
    PageInThread(shown, thread, c.since, page);
    PageFindsFirst(thread, Page(shown, c.since, page), c, verdict, page, p, PageStart(thread, c.since, page));
  }

  lemma {:induction false} PagesFindFirst(thread: Thread, listings: seq<Listing>, c: Cursor,
                                          verdict: Comment -> Verdict, page: nat, p: Progress, next: Option<Cursor>)
    requires Ordered(thread) && forall n | 0 <= n < |listings| :: Shows(listings[n], thread)
    requires 1 <= c.page <= page && Settled(thread, c, verdict, PageStart(thread, c.since, page))
    ensures
      var stop := PollPages(listings, c, verdict, page, p, next).stop;
      stop.ReplyStop? ==> IsFirstValid(thread, c, verdict, stop.reply)
    decreases |listings|
  {
    if listings != [] && listings[0].Listed? {
      var shown := listings[0].thread;
      var cs := Page(shown, c.since, page);
      if cs != [] {
        ShownPageFindsFirst(thread, shown, c, verdict, page, p);
        var (p', stop) := ScanComments(cs, c, verdict, p);
        if stop.Continue? && |cs| == PER_PAGE {
          PagesFindFirst(thread, listings[1..], c, verdict, page + 1, p', Some(Cursor(page + 1, c.since, p'.latestId)));
        }
      }
    }
  }

  /** The reply a poll accepts is the first comment of the thread that the cursor does not have behind
    it and that is valid: every comment before it is behind the cursor or got a definite no. */
  lemma ReplyIsFirstValid(thread: Thread, listings: seq<Listing>, stored: Option<Cursor>, notifiedAt: int,
                          verdict: Comment -> Verdict, examined: set<int>)
    requires Ordered(thread) && forall n | 0 <= n < |listings| :: Shows(listings[n], thread)
    ensures
      var stop := Poll(listings, stored, notifiedAt, verdict, examined).stop;
      stop.ReplyStop? ==> IsFirstValid(thread, Start(stored, notifiedAt), verdict, stop.reply)
  {
    var c := Start(stored, notifiedAt);
    PagesFindFirst(thread, listings, c, verdict, c.page, Progress(c.lastId, c.since, examined), None);
  }

  // ----- Read or answered

  function NoReply(c: Comment): Verdict {
    Rejected
  }

  ghost predicate IsDefinite(verdict: Comment -> Verdict) {
    forall c :: !verdict(c).Retryable?
  }

  /** A scan that stops at nothing is the scan that would reject everything. */
  lemma {:induction false} ScanWithoutStop(cs: seq<Comment>, c: Cursor, verdict: Comment -> Verdict, p: Progress)
    requires IsDefinite(verdict)
    ensures
      var (p', stop) := ScanComments(cs, c, verdict, p);
      stop.ReplyStop? || (stop.Continue? && ScanComments(cs, c, NoReply, p) == (p', stop))
    decreases |cs|
  {
    if cs != [] {
      ScanWithoutStop(cs[1..], c, verdict, if Skips(c, cs[0]) then p else p.With(cs[0]));
    }
  }

  lemma {:induction false} PagesWithoutStop(listings: seq<Listing>, c: Cursor, verdict: Comment -> Verdict,
                                            page: nat, p: Progress, next: Option<Cursor>)
    requires IsDefinite(verdict) && page >= 1
    ensures
      var r := PollPages(listings, c, verdict, page, p, next);
      r.stop.ReplyStop? || r == PollPages(listings, c, NoReply, page, p, next)
    decreases |listings|
  {
    if listings != [] && listings[0].Listed? {
      var cs := Page(listings[0].thread, c.since, page);
      ScanWithoutStop(cs, c, verdict, p);
      var (p', stop) := ScanComments(cs, c, verdict, p);
      if stop.Continue? && |cs| == PER_PAGE {
        PagesWithoutStop(listings[1..], c, verdict, page + 1, p', Some(Cursor(page + 1, c.since, p'.latestId)));
      }
    }
  }

  /** The poll number `j` of a sequence of like polls accepts a reply. */
  predicate AnswersAt(thread: Thread, notifiedAt: int, verdict: Comment -> Verdict, r: Reader, j: nat) {
    var before := AfterPolls(r, notifiedAt, QuietPolls(thread, verdict, j));
    Poll([Listed(thread), Listed(thread)], before.cursor, notifiedAt, verdict, before.examined).stop.ReplyStop?
  }

  lemma {:induction false} PollsWithoutAnswer(thread: Thread, notifiedAt: int, verdict: Comment -> Verdict,
                                              r: Reader, k: nat)
    requires IsDefinite(verdict)
    requires forall j | 0 <= j < k :: !AnswersAt(thread, notifiedAt, verdict, r, j)
    ensures AfterPolls(r, notifiedAt, QuietPolls(thread, verdict, k))
         == AfterPolls(r, notifiedAt, QuietPolls(thread, NoReply, k))
    decreases k
  {
    if k > 0 {
      PollsWithoutAnswer(thread, notifiedAt, verdict, r, k - 1);
      OneMorePoll(r, notifiedAt, thread, verdict, k - 1);
      OneMorePoll(r, notifiedAt, thread, NoReply, k - 1);
      var before := AfterPolls(r, notifiedAt, QuietPolls(thread, verdict, k - 1));
      var c := Start(before.cursor, notifiedAt);
      assert !AnswersAt(thread, notifiedAt, verdict, r, k - 1);
      PagesWithoutStop([Listed(thread), Listed(thread)], c, verdict, c.page,
                       Progress(c.lastId, c.since, before.examined), None);
    }
  }

  /** After any sequence of polls, in a thread that no longer grows, with listings that succeed and
    definite verdicts: within the polls that the listing from the cursor's page on takes, a reply is
    accepted or every comment since the notice is examined. */
  lemma ThreadIsReadOrAnswered(thread: Thread, notifiedAt: int, es: seq<PollEvent>, verdict: Comment -> Verdict,
                               n: nat, i: nat)
    requires Ordered(thread) && IsDefinite(verdict)
    requires AllShow(es, thread)
    requires
      var c := Start(AfterPolls(Reader(None, {}), notifiedAt, es).cursor, notifiedAt);
      PageStart(thread, c.since, c.page) + n == |thread|
    requires i < |thread| && thread[i].created >= notifiedAt
    ensures
      var r := AfterPolls(Reader(None, {}), notifiedAt, es);
      || (exists j | 0 <= j < Polls(n) :: AnswersAt(thread, notifiedAt, verdict, r, j))
      || thread[i].id in AfterPolls(r, notifiedAt, QuietPolls(thread, verdict, Polls(n))).examined
  {
    var r := AfterPolls(Reader(None, {}), notifiedAt, es);
    if forall j | 0 <= j < Polls(n) :: !AnswersAt(thread, notifiedAt, verdict, r, j) {
      PollsWithoutAnswer(thread, notifiedAt, verdict, r, Polls(n));
      QuietThreadIsRead(thread, notifiedAt, es, NoReply, n, i);
    }
  }
}
