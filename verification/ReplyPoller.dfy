/** `poll_escalation_reply`: read a growing comment thread page by page from a persisted cursor.

  The thread only grows. Its comments are in order of creation, with increasing ids, and a listing
  returns those created at or after `since`. A poll reads at most two pages of 100. */
module ReplyPoller {
  import opened Wrappers
  import opened CommentThread

  const MAX_PAGES_PER_POLL: nat := 2

  datatype Cursor = Cursor(page: nat, since: int, lastId: Option<int>)

  /** What validation says: a definite no, a failure to be tried again, or a valid reply. */
  datatype Verdict = Rejected | Retryable | Valid

  datatype Listing = ListingError | Listed(thread: Thread)

  /** What a poll knows so far: the latest comment it examined, and all ids examined up to now. */
  datatype Progress = Progress(latestId: Option<int>, latestTime: int, examined: set<int>) {
    function With(c: Comment): Progress {
      Progress(if latestId.None? || c.id > latestId.value then Some(c.id) else latestId,
               if c.created > latestTime then c.created else latestTime,
               examined + {c.id})
    }
  }

  datatype Stop = Continue | RetryStop | ReplyStop(reply: Comment)

  datatype PollResult = PollResult(next: Option<Cursor>, examined: set<int>, stop: Stop)

  // ----- One poll

  predicate Skips(c: Cursor, comment: Comment) {
    c.lastId.Some? && comment.created == c.since && comment.id <= c.lastId.value
  }

  function ScanComments(cs: seq<Comment>, c: Cursor, verdict: Comment -> Verdict, p: Progress): (r: (Progress, Stop)) {
    if cs == [] then (p, Continue)
    else if Skips(c, cs[0]) then ScanComments(cs[1..], c, verdict, p)
    else
      match verdict(cs[0])
      case Valid => (p, ReplyStop(cs[0]))
      case Retryable => (p, RetryStop)
      case Rejected => ScanComments(cs[1..], c, verdict, p.With(cs[0]))
  }

  function FirstPageCursor(p: Progress): Cursor {
    Cursor(1, p.latestTime, p.latestId)
  }

  function PollPages(listings: seq<Listing>, c: Cursor, verdict: Comment -> Verdict, page: nat,
                     p: Progress, next: Option<Cursor>): (r: PollResult)
    requires page >= 1
    decreases |listings|
  {
    if listings == [] || listings[0].ListingError? then PollResult(next, p.examined, Continue)
    else
      var cs := Page(listings[0].thread, c.since, page);
      if cs == [] then PollResult(Some(FirstPageCursor(p)), p.examined, Continue)
      else
        var (p', stop) := ScanComments(cs, c, verdict, p);
        if stop.ReplyStop? then PollResult(None, p'.examined, stop)
        else if stop.RetryStop? || |cs| < PER_PAGE then PollResult(Some(FirstPageCursor(p')), p'.examined, stop)
        else PollPages(listings[1..], c, verdict, page + 1, p', Some(Cursor(page + 1, c.since, p'.latestId)))
  }

  /** A missing or malformed cursor means a start at the time of the notice. */
  function Start(stored: Option<Cursor>, notifiedAt: int): (c: Cursor)
    ensures c.page >= 1
  {
    if stored.None? then Cursor(1, notifiedAt, None)
    else stored.value.(page := if stored.value.page >= 1 then stored.value.page else 1)
  }

  function Poll(listings: seq<Listing>, stored: Option<Cursor>, notifiedAt: int,
                verdict: Comment -> Verdict, examined: set<int>): PollResult
  {
    var c := Start(stored, notifiedAt);
    PollPages(listings, c, verdict, c.page, Progress(c.lastId, c.since, examined), None)
  }

  /** The comments of one page, in order, until one is valid or has to be tried again. */
  method ReadPage(comments: seq<Comment>, cursor: Cursor, verdict: Comment -> Verdict,
                  latestId0: Option<int>, latestTime0: int, ghost examined0: set<int>)
    returns (latestId: Option<int>, latestTime: int, ghost examined: set<int>, stop: Stop)
    ensures
      var (p, s) := ScanComments(comments, cursor, verdict, Progress(latestId0, latestTime0, examined0));
      (latestId, latestTime, stop) == (p.latestId, p.latestTime, s)
    ensures examined == ScanComments(comments, cursor, verdict, Progress(latestId0, latestTime0, examined0)).0.examined
  {
    latestId, latestTime, examined := latestId0, latestTime0, examined0;
    for i := 0 to |comments|
      invariant ScanComments(comments[i..], cursor, verdict, Progress(latestId, latestTime, examined))
             == ScanComments(comments, cursor, verdict, Progress(latestId0, latestTime0, examined0))
    {
      var comment := comments[i];
      assert comments[i..][1..] == comments[i + 1..];
      if Skips(cursor, comment) {
        continue;
      }
      match verdict(comment) {
        case Valid =>
          return latestId, latestTime, examined, ReplyStop(comment);
        case Retryable =>
          return latestId, latestTime, examined, RetryStop;
        case Rejected =>
          if latestId.None? || comment.id > latestId.value {
            latestId := Some(comment.id);
          }
          if comment.created > latestTime {
            latestTime := comment.created;
          }
          examined := examined + {comment.id};
      }
    }
    stop := Continue;
  }

  method PollEscalationReply(listings: seq<Listing>, stored: Option<Cursor>, notifiedAt: int,
                             verdict: Comment -> Verdict, ghost examined: set<int>)
    returns (next: Option<Cursor>, reply: Option<Comment>, ghost nowExamined: set<int>)
    requires |listings| == 2
    ensures
      var r := Poll(listings, stored, notifiedAt, verdict, examined);
      next == r.next && reply == if r.stop.ReplyStop? then Some(r.stop.reply) else None
    ensures nowExamined == Poll(listings, stored, notifiedAt, verdict, examined).examined
  {
    var cursor := Start(stored, notifiedAt);
    var page, latestId, latestTime := cursor.page, cursor.lastId, cursor.since;
    next, reply, nowExamined := None, None, examined;
    for attempt := 0 to MAX_PAGES_PER_POLL
      invariant page >= 1 && reply.None?
      invariant Poll(listings, stored, notifiedAt, verdict, examined)
             == PollPages(listings[attempt..], cursor, verdict, page,
                          Progress(latestId, latestTime, nowExamined), next)
    {
      if listings[attempt].ListingError? {
        return;
      }
      var comments := Page(listings[attempt].thread, cursor.since, page);
      if comments == [] {
        next := Some(Cursor(1, latestTime, latestId));
        return;
      }
      var stop;
      latestId, latestTime, nowExamined, stop :=
        ReadPage(comments, cursor, verdict, latestId, latestTime, nowExamined);
      if stop.ReplyStop? {
        return None, Some(stop.reply), nowExamined;
      }
      if stop.RetryStop? || |comments| < PER_PAGE {
        next := Some(Cursor(1, latestTime, latestId));
        return;
      }
      page := page + 1;
      next := Some(Cursor(page, cursor.since, latestId));
      assert listings[attempt..][1..] == listings[attempt + 1..];
    }
  }
}
