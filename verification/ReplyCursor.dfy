/** Where one poll leaves its cursor, on every way out: told from the comments that it refused. */
module ReplyCursor {
  import opened Wrappers
  import opened CommentThread
  import opened ReplyPoller
  import opened ReplyCoverage

  /** The cursor stands at this comment or at a later one of the same second. */
  predicate WasRead(c: Cursor, comment: Comment) {
    c.lastId.Some? && c.since == comment.created && c.lastId.value >= comment.id
  }

  /** The comments that get a definite no, up to the first other one. */
  function Refused(cs: seq<Comment>, c: Cursor, verdict: Comment -> Verdict): seq<Comment> {
    if cs == [] then []
    else if WasRead(c, cs[0]) then Refused(cs[1..], c, verdict)
    else if verdict(cs[0]) == Rejected then [cs[0]] + Refused(cs[1..], c, verdict)
    else []
  }

  /** The first comment that is valid, or has to be tried again. */
  function Blocker(cs: seq<Comment>, c: Cursor, verdict: Comment -> Verdict): Option<Comment> {
    if cs == [] then None
    else if !WasRead(c, cs[0]) && verdict(cs[0]) != Rejected then Some(cs[0])
    else Blocker(cs[1..], c, verdict)
  }

  function LatestTime(time: int, xs: seq<Comment>): int
    decreases |xs|
  {
    if xs == [] then time else LatestTime(if xs[0].created > time then xs[0].created else time, xs[1..])
  }

  function LatestId(id: Option<int>, xs: seq<Comment>): Option<int>
    decreases |xs|
  {
    if xs == [] then id
    else LatestId(if id.Some? && id.value >= xs[0].id then id else Some(xs[0].id), xs[1..])
  }

  function Ids(xs: seq<Comment>): set<int> {
    if xs == [] then {} else {xs[0].id} + Ids(xs[1..])
  }

  /** The greatest of the time and those of the comments. */
  lemma {:induction false} LatestTimeIs(time: int, xs: seq<Comment>)
    ensures LatestTime(time, xs) >= time && forall x | x in xs :: x.created <= LatestTime(time, xs)
    ensures LatestTime(time, xs) == time || exists x | x in xs :: x.created == LatestTime(time, xs)
    decreases |xs|
  {
    if xs != [] {
      LatestTimeIs(if xs[0].created > time then xs[0].created else time, xs[1..]);
      assert forall x | x in xs :: x == xs[0] || x in xs[1..];
    }
  }

  /** The greatest of the id, if there is one, and those of the comments. */
  lemma {:induction false} LatestIdIs(id: Option<int>, xs: seq<Comment>)
    ensures
      var latest := LatestId(id, xs);
      && (latest == None <==> id == None && xs == [])
      && (latest.Some? ==>
            && (id.Some? ==> id.value <= latest.value) && (forall x | x in xs :: x.id <= latest.value)
            && (latest == id || exists x | x in xs :: x.id == latest.value))
    decreases |xs|
  {
    if xs != [] {
      LatestIdIs(if id.Some? && id.value >= xs[0].id then id else Some(xs[0].id), xs[1..]);
      assert forall x | x in xs :: x == xs[0] || x in xs[1..];
    }
  }

  lemma {:induction false} IdsAre(xs: seq<Comment>, id: int)
    ensures id in Ids(xs) <==> exists x | x in xs :: x.id == id
  {
    if xs != [] {
      IdsAre(xs[1..], id);
      assert forall x :: x in xs <==> x == xs[0] || x in xs[1..];
    }
  }

  /** What a poll that knows `p` knows after it refused `xs`. */
  function After(p: Progress, xs: seq<Comment>): Progress {
    Progress(LatestId(p.latestId, xs), LatestTime(p.latestTime, xs), p.examined + Ids(xs))
  }

  lemma AfterNone(p: Progress)
    ensures After(p, []) == p
  {
  }

  lemma AfterOne(p: Progress, x: Comment, xs: seq<Comment>)
    ensures After(p, [x] + xs) == After(p.With(x), xs)
  {
    assert ([x] + xs)[1..] == xs;
    assert p.examined + ({x.id} + Ids(xs)) == p.With(x).examined + Ids(xs);
  }

  lemma {:induction false} AfterBoth(p: Progress, xs: seq<Comment>, ys: seq<Comment>)
    ensures After(p, xs + ys) == After(After(p, xs), ys)
    decreases |xs|
  {
    if xs == [] {
      assert xs + ys == ys;
      AfterNone(p);
    } else {
      assert xs + ys == [xs[0]] + (xs[1..] + ys) && xs == [xs[0]] + xs[1..];
      AfterOne(p, xs[0], xs[1..] + ys);
      AfterOne(p, xs[0], xs[1..]);
      AfterBoth(p.With(xs[0]), xs[1..], ys);
    }
  }

  function StopAt(blocker: Option<Comment>, verdict: Comment -> Verdict): Stop {
    if blocker == None then Continue
    else if verdict(blocker.value) == Valid then ReplyStop(blocker.value)
    else RetryStop
  }

  /** The comments of one page: the refused ones are examined, and the first other one stops the scan. */
  lemma {:induction false} ScanRefuses(cs: seq<Comment>, c: Cursor, verdict: Comment -> Verdict, p: Progress)
    ensures ScanComments(cs, c, verdict, p)
         == (After(p, Refused(cs, c, verdict)), StopAt(Blocker(cs, c, verdict), verdict))
    decreases |cs|
  {
    if cs == [] || (!WasRead(c, cs[0]) && verdict(cs[0]) != Rejected) {
      AfterNone(p);
    } else if WasRead(c, cs[0]) {
      ScanRefuses(cs[1..], c, verdict, p);
    } else {
      ScanRefuses(cs[1..], c, verdict, p.With(cs[0]));
      AfterOne(p, cs[0], Refused(cs[1..], c, verdict));
    }
  }

  /** Page one, at the latest of the refused comments. */
  function StandsAt(c: Cursor, xs: seq<Comment>): Option<Cursor> {
    Some(Cursor(1, LatestTime(c.since, xs), LatestId(c.lastId, xs)))
  }

  /** On to `page` of the same listing. */
  function TurnsTo(c: Cursor, xs: seq<Comment>, page: nat): Option<Cursor> {
    Some(Cursor(page, c.since, LatestId(c.lastId, xs)))
  }

  /** What a poll knows before it lists anything. */
  function Before(c: Cursor, examined: set<int>): Progress {
    Progress(c.lastId, c.since, examined)
  }

  /** The cursor from which a poll starts: the stored one, with its page at least one, or page one at the
    time of the notice. */
  predicate StartsFrom(c: Cursor, stored: Option<Cursor>, notifiedAt: int) {
    && (stored == None ==> c == Cursor(1, notifiedAt, None))
    && (stored != None ==>
          && (c.since, c.lastId) == (stored.value.since, stored.value.lastId)
          && c.page == if stored.value.page == 0 then 1 else stored.value.page)
  }

  /** How a poll ends on a page that it has listed, `xs` refused by then. A valid reply leaves the cursor alone:
    the accept closes it. A comment to be tried again, a short page or an empty one sends it back to page
    one, at the latest refused comment. */
  predicate EndsOn(c: Cursor, xs: seq<Comment>, stop: Stop, examined: set<int>, r: PollResult) {
    r == PollResult(if stop.ReplyStop? then None else StandsAt(c, xs), examined + Ids(xs), stop)
  }

  /** The page is full and nothing on it stops the poll. */
  predicate GoesOn(cs: seq<Comment>, c: Cursor, verdict: Comment -> Verdict) {
    |cs| >= 100 && Blocker(cs, c, verdict) == None
  }

  /** One page that is listed, `xs` refused before it. */
  lemma PageLeaves(listings: seq<Listing>, c: Cursor, verdict: Comment -> Verdict, page: nat, examined: set<int>,
                   xs: seq<Comment>, next: Option<Cursor>, r: PollResult)
    requires page >= 1 && listings != [] && listings[0].Listed?
    requires r == PollPages(listings, c, verdict, page, After(Before(c, examined), xs), next)
    ensures
      var cs := Page(listings[0].thread, c.since, page);
      var all := xs + Refused(cs, c, verdict);
      if GoesOn(cs, c, verdict)
      then
        r == PollPages(listings[1..], c, verdict, page + 1, After(Before(c, examined), all), TurnsTo(c, all, page + 1))
      else EndsOn(c, all, StopAt(Blocker(cs, c, verdict), verdict), examined, r)
  {
    var cs := Page(listings[0].thread, c.since, page);
    ScanRefuses(cs, c, verdict, After(Before(c, examined), xs));
    AfterBoth(Before(c, examined), xs, Refused(cs, c, verdict));
  }

  /** How a poll ends on its last page, if that is listed: a full one that stops nothing lets the next poll go
    on behind it. */
  predicate LeavesLast(c: Cursor, thread: Thread, page: nat, verdict: Comment -> Verdict, xs: seq<Comment>,
                       examined: set<int>, r: PollResult)
    requires page >= 1
  {
    var cs := Page(thread, c.since, page);
    var all := xs + Refused(cs, c, verdict);
    if GoesOn(cs, c, verdict) then r == PollResult(TurnsTo(c, all, page + 1), examined + Ids(all), Stop.Continue)
    else EndsOn(c, all, StopAt(Blocker(cs, c, verdict), verdict), examined, r)
  }

  /** How a poll ends after a full page before `page`, of which `xs` were refused: if the next listing fails, the
    next poll goes on with it. */
  predicate LeavesNext(c: Cursor, listing: Listing, page: nat, verdict: Comment -> Verdict, xs: seq<Comment>,
                       examined: set<int>, r: PollResult)
    requires page >= 1
  {
    if listing.ListingError? then r == PollResult(TurnsTo(c, xs, page), examined + Ids(xs), Stop.Continue)
    else LeavesLast(c, listing.thread, page, verdict, xs, examined, r)
  }

  lemma NothingListed(listings: seq<Listing>, c: Cursor, verdict: Comment -> Verdict, page: nat, p: Progress,
                      next: Option<Cursor>)
    requires page >= 1 && (listings == [] || listings[0].ListingError?)
    ensures PollPages(listings, c, verdict, page, p, next) == PollResult(next, p.examined, Stop.Continue)
  {
  }

  lemma LastPageLeaves(last: Listing, c: Cursor, verdict: Comment -> Verdict, page: nat, examined: set<int>,
                       xs: seq<Comment>, next: Option<Cursor>)
    requires page >= 1 && last.Listed?
    ensures LeavesLast(c, last.thread, page, verdict, xs, examined,
                       PollPages([last], c, verdict, page, After(Before(c, examined), xs), next))
  {
    var all := xs + Refused(Page(last.thread, c.since, page), c, verdict);
    PageLeaves([last], c, verdict, page, examined, xs, next,
               PollPages([last], c, verdict, page, After(Before(c, examined), xs), next));
    NothingListed([last][1..], c, verdict, page + 1, After(Before(c, examined), all), TurnsTo(c, all, page + 1));
  }

  lemma NextLeaves(listing: Listing, c: Cursor, verdict: Comment -> Verdict, page: nat, examined: set<int>,
                   xs: seq<Comment>)
    requires page >= 1
    ensures LeavesNext(c, listing, page, verdict, xs, examined,
                       PollPages([listing], c, verdict, page, After(Before(c, examined), xs), TurnsTo(c, xs, page)))
  {
    if listing.Listed? {
      LastPageLeaves(listing, c, verdict, page, examined, xs, TurnsTo(c, xs, page));
    } else {
      NothingListed([listing], c, verdict, page, After(Before(c, examined), xs), TurnsTo(c, xs, page));
    }
  }

  /** How a poll of `page` ends: by what its first listing answers, and, after a full page that stops nothing,
    its second, of `page2`. */
  predicate LeavesBoth(c: Cursor, first: Listing, second: Listing, page: nat, page2: nat, verdict: Comment -> Verdict,
                       examined: set<int>, r: PollResult)
    requires page >= 1 && page2 >= 1
  {
    if first.ListingError? then r == PollResult(None, examined, Stop.Continue)
    else
      var cs := Page(first.thread, c.since, page);
      var xs := Refused(cs, c, verdict);
      if GoesOn(cs, c, verdict) then LeavesNext(c, second, page2, verdict, xs, examined, r)
      else EndsOn(c, xs, StopAt(Blocker(cs, c, verdict), verdict), examined, r)
  }

  lemma BothLeave(first: Listing, second: Listing, c: Cursor, verdict: Comment -> Verdict, page: nat, page2: nat,
                  examined: set<int>)
    requires page >= 1 && page2 == page + 1
    ensures LeavesBoth(c, first, second, page, page2, verdict, examined,
                       PollPages([first, second], c, verdict, page, Before(c, examined), None))
  {
    AfterNone(Before(c, examined));
    if first.Listed? {
      var xs := Refused(Page(first.thread, c.since, page), c, verdict);
      PageLeaves([first, second], c, verdict, page, examined, [], None,
                 PollPages([first, second], c, verdict, page, Before(c, examined), None));
      assert [] + xs == xs && [first, second][1..] == [second];
      NextLeaves(second, c, verdict, page2, examined, xs);
    }
  }

  /** One poll, from the cursor that its stored one and the time of the notice call for: where it leaves its
    cursor, and what it examined. */
  lemma PollLeaves(first: Listing, second: Listing, stored: Option<Cursor>, notifiedAt: int,
                   verdict: Comment -> Verdict, examined: set<int>, c: Cursor)
    requires StartsFrom(c, stored, notifiedAt)
    ensures c.page >= 1
    ensures LeavesBoth(c, first, second, c.page, c.page + 1, verdict, examined,
                       Poll([first, second], stored, notifiedAt, verdict, examined))
  {
    assert c == Start(stored, notifiedAt);
    BothLeave(first, second, c, verdict, c.page, c.page + 1, examined);
  }

  /** The persisted cursor moves exactly when the poll has one to leave and the record it read still stands. */
  lemma SavedOrKept(r: Reader, notifiedAt: int, e: PollEvent)
    ensures
      var result, r' := Poll(e.listings, r.cursor, notifiedAt, e.verdict, r.examined), AfterPoll(r, notifiedAt, e);
      && r'.examined == result.examined
      && (e.saved && result.next != None ==> r'.cursor == result.next)
      && (!e.saved || result.next == None ==> r'.cursor == r.cursor)
  {
  }
}
