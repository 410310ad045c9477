/** One run's escalation record under polls, deliveries, accepted replies, new episodes and time.

  A poll or a delivery reads the stored record, works on that copy, and saves later; anything can
  happen to the stored record in between. A poll compares before it saves; a delivery writes its whole
  copy. `Next` is one atomic step. The policy is fixed. */
module EscalationLifecycle {
  import opened Wrappers
  import opened CommentThread
  import opened EscalationRecords
  import opened NoticeDelivery

  /** A poll between its read and its save: the copy it read, what it would save, and its time. */
  datatype Job = Job(seen: Record, change: Change, at: int)

  /** `deliveries` holds the copies that deliveries under way read. */
  datatype System = System(record: Record, clock: int, jobs: seq<Job>, deliveries: seq<Record>, used: set<string>)

  datatype Event =
    | Tick(seconds: nat)
    | DeliveryRead
    | DeliverySave(delivery: nat, a: Attempt, thread: Thread, marker: string)
    | DeliveryDrop(delivery: nat)
    | PollRead(contextIsValid: bool, position: string)
    | PollSave(job: nat)
    | PollDrop(job: nat)
    | PollAccept(job: nat, receipt: int, contextHolds: bool)
    | DashboardAccept(receipt: int, madeAt: int, contextHolds: bool)
    | Resume
    | NewEpisode(episodeId: string, remote: bool, closed: bool)

  /** A run waits for a human while the notice is pending, posted or failed. */
  predicate AwaitsHuman(r: Record) {
    r.status.PendingNotification? || r.status.Notified? || r.status.NotificationFailed?
  }

  predicate CanAccept(r: Record, policy: Policy, at: int) {
    AwaitsHuman(r) && !policy.WindowPassed(r, at) && policy.ReopensLeft(r)
  }

  /** Whether the event accepts a reply. Both paths check the stored record again: `contextHolds` says that
    its decision context is valid and still the one that the reply was checked against. A comment is
    judged when the poll read it, and in the episode it read; a dashboard request when it was made, which
    must lie between the start of the episode and now. */
  predicate Accepts(s: System, policy: Policy, e: Event) {
    match e
    case PollAccept(i, _, contextHolds) =>
      && i < |s.jobs| && s.jobs[i].change.Advance? && contextHolds
      && s.record.episodeId == s.jobs[i].seen.episodeId && CanAccept(s.record, policy, s.jobs[i].at)
    case DashboardAccept(_, madeAt, contextHolds) =>
      contextHolds && s.record.createdAt <= madeAt <= s.clock && CanAccept(s.record, policy, madeAt)
    case _ => false
  }

  /** The poll's read: an open gate leads to a cursor move, a closed one can close or expire. */
  function ReadJob(r: Record, policy: Policy, clock: int, contextIsValid: bool, position: string): Option<Job> {
    if !r.status.Notified? || r.lastNotifiedAt.None? then None
    else
      var cause := ReplyClosedCause(r, policy, clock);
      if cause.None? && contextIsValid then Some(Job(r, Advance(position), clock))
      else if r.replyCursor.Closed? then None
      else
        match GateTransition(cause, contextIsValid)
        case Some(change) => Some(Job(r, change, clock))
        case None => None
  }

  function Without<T>(items: seq<T>, i: nat): seq<T>
    requires i < |items|
  {
    items[..i] + items[i + 1..]
  }

  predicate AwaitsNotice(r: Record) {
    r.status.PendingNotification? || r.status.NotificationFailed?
  }

  /** What a delivery that read `seen` saves over the stored record: its whole copy, or nothing. */
  function SavedCopy(seen: Record, policy: Policy, e: Event): Option<Record>
    requires e.DeliverySave?
  {
    var copy := Deliver(seen, e.thread, policy, e.marker, e.a).record;
    if copy == seen then None else Some(copy)
  }

  function Next(s: System, policy: Policy, e: Event): System {
    match e
    case Tick(seconds) => s.(clock := s.clock + seconds)
    case DeliveryRead => if AwaitsNotice(s.record) then s.(deliveries := s.deliveries + [s.record]) else s
    case DeliverySave(i, _, _, _) =>
      if i < |s.deliveries| then
        var copy := SavedCopy(s.deliveries[i], policy, e);
        s.(record := if copy.Some? then copy.value else s.record, deliveries := Without(s.deliveries, i))
      else s
    case DeliveryDrop(i) =>
      if i < |s.deliveries| then s.(deliveries := Without(s.deliveries, i)) else s
    case PollRead(contextIsValid, position) =>
      (match ReadJob(s.record, policy, s.clock, contextIsValid, position)
       case Some(job) => s.(jobs := s.jobs + [job])
       case None => s)
    case PollSave(i) =>
      if i < |s.jobs| then
        var job := s.jobs[i];
        s.(record := SavedIfUnchanged(s.record, job.seen, job.change, job.at), jobs := Without(s.jobs, i))
      else s
    case PollDrop(i) => if i < |s.jobs| then s.(jobs := Without(s.jobs, i)) else s
    case PollAccept(i, receipt, _) =>
      if i < |s.jobs| && s.jobs[i].change.Advance? then
        var r := if Accepts(s, policy, e) then s.record.ReopenedBy(receipt, s.jobs[i].at) else s.record;
        s.(record := r, jobs := Without(s.jobs, i))
      else s
    case DashboardAccept(receipt, _, _) =>
      if Accepts(s, policy, e) then s.(record := s.record.ReopenedBy(receipt, s.clock)) else s
    case Resume => if s.record.status.Reopened? then s.(record := s.record.(status := Resumed)) else s
    case NewEpisode(id, remote, closed) =>
      if id in s.used then s
      else
        s.(used := s.used + {id},
           record := Record(id, PendingNotification, None, None, 0, None, if closed then Closed else NoCursor,
                            s.record.acceptedReplies, s.record.reopenCount, remote, s.clock, s.clock))
  }

  function Run(s: System, policy: Policy, es: seq<Event>): System
    decreases |es|
  {
    if es == [] then s else Run(Next(s, policy, es[0]), policy, es[1..])
  }

  // ----- Invariant

  /** A poll in flight read a notified record; one that would move the cursor saw an open gate, and
    one that would expire the record saw its window over. */
  ghost predicate JobOk(job: Job, policy: Policy, s: System) {
    && job.seen.status.Notified? && !job.seen.replyCursor.Closed?
    && job.seen.episodeId in s.used && job.at <= s.clock
    && (job.change.Advance? ==> ReplyClosedCause(job.seen, policy, job.at).None?)
    && (job.change.Expire? ==> ReplyClosedCause(job.seen, policy, job.at) == Some(WindowExpired))
  }

  ghost predicate Ok(s: System, policy: Policy) {
    && s.record.episodeId in s.used
    && s.record.reopenCount <= policy.maxReopens
    && (forall job | job in s.jobs :: JobOk(job, policy, s))
    && (forall seen | seen in s.deliveries :: CopyOk(seen, policy, s))
  }

  ghost predicate CopyOk(seen: Record, policy: Policy, s: System) {
    AwaitsNotice(seen) && seen.episodeId in s.used && seen.reopenCount <= policy.maxReopens
  }

  lemma NextKeepsJobs(s: System, policy: Policy, e: Event)
    requires Ok(s, policy)
    ensures forall job | job in Next(s, policy, e).jobs :: JobOk(job, policy, Next(s, policy, e))
  {
    var t := Next(s, policy, e);
    forall job | job in t.jobs
      ensures JobOk(job, policy, t)
    {
      if job in s.jobs {
        assert JobOk(job, policy, s);
      }
    }
  }

  lemma NextKeepsDeliveries(s: System, policy: Policy, e: Event)
    requires Ok(s, policy)
    ensures forall seen | seen in Next(s, policy, e).deliveries :: CopyOk(seen, policy, Next(s, policy, e))
  {
    var t := Next(s, policy, e);
    forall seen | seen in t.deliveries
      ensures CopyOk(seen, policy, t)
    {
      if seen in s.deliveries {
        assert CopyOk(seen, policy, s);
      }
    }
  }

  lemma NextIsOk(s: System, policy: Policy, e: Event)
    requires Ok(s, policy)
    ensures Ok(Next(s, policy, e), policy)
  {
    NextKeepsJobs(s, policy, e);
    NextKeepsDeliveries(s, policy, e);
    if e.DeliverySave? && e.delivery < |s.deliveries| {
      assert CopyOk(s.deliveries[e.delivery], policy, s);
      DeliverKeepsCounts(s.deliveries[e.delivery], e.thread, policy, e.marker, e.a);
    }
  }

  lemma DeliverKeepsCounts(r: Record, thread: Thread, policy: Policy, marker: string, a: Attempt)
    ensures
      var r' := Deliver(r, thread, policy, marker, a).record;
      && (r'.episodeId, r'.createdAt) == (r.episodeId, r.createdAt)
      && (r'.reopenCount, r'.acceptedReplies) == (r.reopenCount, r.acceptedReplies)
  {
  }

  /** The event is a delivery's save that writes its copy. */
  predicate Writes(s: System, policy: Policy, e: Event) {
    && e.DeliverySave? && e.delivery < |s.deliveries|
    && SavedCopy(s.deliveries[e.delivery], policy, e).Some?
  }

  /** The step adds a receipt: no delivery writes, and the receipts are not those before. */
  predicate AddsReceipt(s: System, policy: Policy, e: Event) {
    !Writes(s, policy, e) && Next(s, policy, e).record.acceptedReplies != s.record.acceptedReplies
  }

  /** A step that accepts a reply adds its receipt, counts a reopen and closes the record. */
  predicate Reopens(r: Record, r': Record, receipt: int, now: int) {
    r' == Record(r.episodeId, Reopened, r.target, r.commentId, r.deliveryAttempts, r.lastNotifiedAt, Closed,
                 r.acceptedReplies + [receipt], r.reopenCount + 1, r.remoteResumeEnabled, r.createdAt, now)
  }

  /** A human is still waited for, the window is open at `at`, and a reopen is left. */
  predicate TakesReply(r: Record, policy: Policy, at: int) {
    && r.status in {PendingNotification, Notified, NotificationFailed}
    && at <= r.createdAt + policy.replyWindow && r.reopenCount < policy.maxReopens
  }

  /** A polled comment is accepted exactly when the stored record, in the episode that the poll read, still
    takes a reply at the time of the poll and its decision context holds; otherwise nothing changes. */
  lemma PollAcceptsExactlyWhen(s: System, policy: Policy, i: nat, receipt: int, contextHolds: bool)
    ensures
      var r, r' := s.record, Next(s, policy, PollAccept(i, receipt, contextHolds)).record;
      if && i < |s.jobs| && s.jobs[i].change.Advance? && contextHolds
         && s.jobs[i].seen.episodeId == r.episodeId && TakesReply(r, policy, s.jobs[i].at)
      then Reopens(r, r', receipt, s.jobs[i].at)
      else r' == r
  {
  }

  /** A dashboard request is accepted exactly when the record takes a reply at the time it was made. */
  lemma DashboardAcceptsExactlyWhen(s: System, policy: Policy, receipt: int, madeAt: int, contextHolds: bool)
    ensures
      var r, r' := s.record, Next(s, policy, DashboardAccept(receipt, madeAt, contextHolds)).record;
      if contextHolds && r.createdAt <= madeAt <= s.clock && TakesReply(r, policy, madeAt)
      then Reopens(r, r', receipt, s.clock)
      else r' == r
  {
  }

  /** So in every reachable state, a comment is accepted only in an episode in which a poll found the gate
    open: notified, with instructions, an open cursor, an allowed host, and the window open then. */
  lemma AcceptedCommentWasReadOpen(s: System, policy: Policy, i: nat, receipt: int, contextHolds: bool)
    requires Ok(s, policy) && Next(s, policy, PollAccept(i, receipt, contextHolds)).record != s.record
    ensures i < |s.jobs| && s.jobs[i].seen.episodeId == s.record.episodeId && s.jobs[i].at <= s.clock
    ensures
      var seen, at := s.jobs[i].seen, s.jobs[i].at;
      && seen.status == Notified && seen.remoteResumeEnabled && seen.replyCursor != Closed
      && at <= seen.createdAt + policy.replyWindow && ReadsAllowedHost(seen, policy) && policy.enabled
  {
    PollAcceptsExactlyWhen(s, policy, i, receipt, contextHolds);
    assert JobOk(s.jobs[i], policy, s);
    GateIsOpenExactlyWhen(s.jobs[i].seen, policy, s.jobs[i].at);
  }

  /** When the reply of an accept was given: a comment when the poll read it, a request when it was made. */
  function GivenAt(s: System, e: Event): int
    requires (e.PollAccept? && e.job < |s.jobs|) || e.DashboardAccept?
  {
    if e.PollAccept? then s.jobs[e.job].at else e.madeAt
  }

  /** A receipt is added by one of the two accepts only, one at a time, to a record that takes a reply given at
    that time, and the record is then reopened and closed to others. */
  lemma AcceptChecksAgain(s: System, policy: Policy, e: Event)
    requires AddsReceipt(s, policy, e)
    ensures (e.PollAccept? && e.job < |s.jobs|) || e.DashboardAccept?
    ensures TakesReply(s.record, policy, GivenAt(s, e)) && e.contextHolds
    ensures Reopens(s.record, Next(s, policy, e).record, e.receipt, if e.PollAccept? then GivenAt(s, e) else s.clock)
  {
  }

  // ----- The moves of one episode

  /** A poll expires a notified record, an accepted reply reopens a waiting one, and a reopened one resumes. */
  predicate MayMove(before: Status, after: Status) {
    || after == before
    || (before == Notified && after == Expired)
    || (before in {PendingNotification, Notified, NotificationFailed} && after == Reopened)
    || (before == Reopened && after == Resumed)
  }

  /** Within an episode the status moves only so, except by a delivery's write; a new episode starts over,
    with the receipts and the count of the run; and only ticks move the time. */
  lemma StatusMoves(s: System, policy: Policy, e: Event)
    requires Ok(s, policy)
    ensures
      var r, r', t := s.record, Next(s, policy, e).record, Next(s, policy, e);
      && t.clock == s.clock + (if e.Tick? then e.seconds else 0)
      && (e == Resume ==> r'.status == if r.status == Reopened then Resumed else r.status)
      && (!Writes(s, policy, e) && r'.episodeId == r.episodeId ==> MayMove(r.status, r'.status))
      && (!Writes(s, policy, e) && r'.episodeId != r.episodeId ==>
            && e.NewEpisode? && r'.episodeId == e.episodeId && e.episodeId !in s.used
            && (r'.status, r'.deliveryAttempts, r'.target, r'.commentId, r'.lastNotifiedAt)
                 == (PendingNotification, 0, None, None, None)
            && (r'.acceptedReplies, r'.reopenCount) == (r.acceptedReplies, r.reopenCount)
            && r'.createdAt == s.clock && r'.remoteResumeEnabled == e.remote
            && (r'.replyCursor == if e.closed then Closed else NoCursor))
  {
    if e.PollSave? && e.job < |s.jobs| {
      assert JobOk(s.jobs[e.job], policy, s);
    }
  }

  /** A poll saves, accepts or is dropped once. */
  lemma PollEnds(s: System, policy: Policy, e: Event)
    requires (e.PollSave? || e.PollDrop? || e.PollAccept?) && e.job < |s.jobs|
    requires e.PollAccept? ==> s.jobs[e.job].change.Advance?
    ensures Next(s, policy, e).jobs == s.jobs[..e.job] + s.jobs[e.job + 1..]
  {
  }

  // ----- A closed gate stays closed

  /** The gate is closed in a way that nothing in this episode undoes. */
  predicate ShutForGood(r: Record, policy: Policy, clock: int) {
    || r.status.Expired? || r.status.Reopened? || r.status.Resumed?
    || (r.status.Notified? && ReplyClosedCause(r, policy, clock).Some?)
  }

  lemma DeliveryEpisode(s: System, policy: Policy, e: Event)
    requires e.DeliverySave? && e.delivery < |s.deliveries|
    ensures
      var seen, copy := s.deliveries[e.delivery], SavedCopy(s.deliveries[e.delivery], policy, e);
      copy.Some? ==>
        (copy.value.episodeId, copy.value.reopenCount, copy.value.acceptedReplies)
          == (seen.episodeId, seen.reopenCount, seen.acceptedReplies)
  {
    DeliverKeepsCounts(s.deliveries[e.delivery], e.thread, policy, e.marker, e.a);
  }

  /** No step but a late save opens a shut gate within the episode. */
  lemma NextKeepsShut(s: System, policy: Policy, e: Event)
    requires Ok(s, policy) && ShutForGood(s.record, policy, s.clock) && !Writes(s, policy, e)
    ensures
      var t := Next(s, policy, e);
      t.record.episodeId == s.record.episodeId ==> ShutForGood(t.record, policy, t.clock)
  {
    if e.PollSave? && e.job < |s.jobs| {
      assert JobOk(s.jobs[e.job], policy, s);
    }
  }

  /** A written copy waits for its notice or is notified, with the cursor that the notice calls for. */
  lemma WrittenCopy(s: System, policy: Policy, e: Event)
    requires Writes(s, policy, e) && AwaitsNotice(s.deliveries[e.delivery])
    ensures
      var seen, copy := s.deliveries[e.delivery], SavedCopy(s.deliveries[e.delivery], policy, e).value;
      && policy.enabled
      && (copy.episodeId, copy.createdAt, copy.reopenCount) == (seen.episodeId, seen.createdAt, seen.reopenCount)
      && (AwaitsNotice(copy) ||
            (&& copy.status.Notified? && copy.remoteResumeEnabled == e.a.withInstructions
             && (copy.replyCursor.Closed? <==> !e.a.withInstructions)))
  {
    DeliverKeepsCounts(s.deliveries[e.delivery], e.thread, policy, e.marker, e.a);
  }

  // ----- Exactly when it stays closed

  /** While the stored record is of the episode, its gate is shut. */
  predicate ShutIn(s: System, policy: Policy, episode: string) {
    s.record.episodeId == episode ==> ShutForGood(s.record, policy, s.clock)
  }

  /** A delivery writes, over whatever record is stored, a copy of the episode that waits for its notice,
    or carries reply instructions while the window is open, a reopen is left by its own count, and the
    host is allowed. */
  predicate WritesOpenCopy(s: System, policy: Policy, e: Event, episode: string) {
    && Writes(s, policy, e)
    && var seen, copy := s.deliveries[e.delivery], SavedCopy(s.deliveries[e.delivery], policy, e).value;
    && seen.episodeId == episode
    && (|| AwaitsNotice(copy)
        || (&& e.a.withInstructions && !policy.WindowPassed(seen, s.clock)
            && policy.ReopensLeft(seen) && policy.AllowsHost(policy.NoticeHost(copy))))
  }

  /** Exactly when one step opens a gate that is shut in the episode, or brings the episode back with an
    open gate after another one has begun. */
  lemma StepOpensExactlyWhen(s: System, policy: Policy, e: Event, episode: string)
    requires Ok(s, policy) && episode in s.used && ShutIn(s, policy, episode)
    ensures ShutIn(Next(s, policy, e), policy, episode) <==> !WritesOpenCopy(s, policy, e, episode)
    ensures episode in Next(s, policy, e).used
  {
    if Writes(s, policy, e) {
      assert CopyOk(s.deliveries[e.delivery], policy, s);
      WrittenCopy(s, policy, e);
    } else if s.record.episodeId == episode {
      NextKeepsShut(s, policy, e);
    }
  }

  predicate ShutThroughout(s: System, policy: Policy, es: seq<Event>, episode: string)
    decreases |es|
  {
    && ShutIn(s, policy, episode)
    && (es != [] ==> ShutThroughout(Next(s, policy, es[0]), policy, es[1..], episode))
  }

  predicate NoneWritten(s: System, policy: Policy, es: seq<Event>, episode: string)
    decreases |es|
  {
    es != [] ==>
      && !WritesOpenCopy(s, policy, es[0], episode)
      && NoneWritten(Next(s, policy, es[0]), policy, es[1..], episode)
  }

  /** Exactly when a gate that is shut in an episode stays shut in every state of a run in which that
    episode is stored, through new episodes and back. */
  lemma {:induction false} GateKeptExactlyWhen(s: System, policy: Policy, es: seq<Event>, episode: string)
    requires Ok(s, policy) && episode in s.used && ShutIn(s, policy, episode)
    ensures ShutThroughout(s, policy, es, episode) <==> NoneWritten(s, policy, es, episode)
    decreases |es|
  {
    if es != [] {
      NextIsOk(s, policy, es[0]);
      StepOpensExactlyWhen(s, policy, es[0], episode);
      if ShutIn(Next(s, policy, es[0]), policy, episode) {
        GateKeptExactlyWhen(Next(s, policy, es[0]), policy, es[1..], episode);
      }
    }
  }

  lemma {:induction false} ShutThroughoutAtEnd(s: System, policy: Policy, es: seq<Event>, episode: string)
    requires ShutThroughout(s, policy, es, episode)
    ensures ShutIn(Run(s, policy, es), policy, episode)
    decreases |es|
  {
    if es != [] {
      ShutThroughoutAtEnd(Next(s, policy, es[0]), policy, es[1..], episode);
    }
  }

  /** Once the gate of a notified record is closed, it is closed whenever the episode is stored, if no
    delivery writes an open copy of it: the window stays over, the count stays up, and no poll in flight
    opens the cursor again. */
  lemma ClosedGateStaysClosed(s: System, policy: Policy, es: seq<Event>)
    requires Ok(s, policy) && NoneWritten(s, policy, es, s.record.episodeId)
    requires s.record.status.Notified? && ReplyClosedCause(s.record, policy, s.clock).Some?
    ensures
      var t := Run(s, policy, es);
      t.record.episodeId == s.record.episodeId ==> ReplyClosedCause(t.record, policy, t.clock).Some?
  {
    GateKeptExactlyWhen(s, policy, es, s.record.episodeId);
    ShutThroughoutAtEnd(s, policy, es, s.record.episodeId);
  }

  // ----- Saving in time is enough

  /** A delivery saves in time when the stored record is of the episode it read and is not shut. */
  predicate SavesInTime(s: System, policy: Policy, e: Event) {
    Writes(s, policy, e) ==>
      s.record.episodeId == s.deliveries[e.delivery].episodeId && !ShutForGood(s.record, policy, s.clock)
  }

  predicate AllInTime(s: System, policy: Policy, es: seq<Event>)
    decreases |es|
  {
    es != [] ==> SavesInTime(s, policy, es[0]) && AllInTime(Next(s, policy, es[0]), policy, es[1..])
  }

  lemma {:induction false} InTimeWritesNone(s: System, policy: Policy, es: seq<Event>, episode: string)
    requires Ok(s, policy) && episode in s.used && ShutIn(s, policy, episode) && AllInTime(s, policy, es)
    ensures NoneWritten(s, policy, es, episode)
    decreases |es|
  {
    if es != [] {
      NextIsOk(s, policy, es[0]);
      StepOpensExactlyWhen(s, policy, es[0], episode);
      InTimeWritesNone(Next(s, policy, es[0]), policy, es[1..], episode);
    }
  }

  /** How many replies the run accepts while the episode is stored. */
  function AcceptedIn(s: System, policy: Policy, es: seq<Event>, episode: string): nat
    decreases |es|
  {
    if es == [] then 0
    else
      (if s.record.episodeId == episode && AddsReceipt(s, policy, es[0]) then 1 else 0)
      + AcceptedIn(Next(s, policy, es[0]), policy, es[1..], episode)
  }

  /** The episode no longer waits for a human. */
  predicate IsSpent(s: System, episode: string) {
    episode in s.used && (s.record.episodeId == episode ==> !AwaitsHuman(s.record))
  }

  lemma SpentStays(s: System, policy: Policy, e: Event, episode: string)
    requires Ok(s, policy) && IsSpent(s, episode) && SavesInTime(s, policy, e)
    ensures IsSpent(Next(s, policy, e), episode)
  {
    if Writes(s, policy, e) {
      DeliveryEpisode(s, policy, e);
    } else if e.PollSave? && e.job < |s.jobs| {
      assert JobOk(s.jobs[e.job], policy, s);
    }
  }

  lemma {:induction false} SpentAcceptsNone(s: System, policy: Policy, es: seq<Event>, episode: string)
    requires Ok(s, policy) && IsSpent(s, episode) && AllInTime(s, policy, es)
    ensures AcceptedIn(s, policy, es, episode) == 0
    decreases |es|
  {
    if es != [] {
      NextIsOk(s, policy, es[0]);
      SpentStays(s, policy, es[0], episode);
      SpentAcceptsNone(Next(s, policy, es[0]), policy, es[1..], episode);
    }
  }

  /** An episode accepts at most one reply, by either path, if every delivery saves in time. */
  lemma {:induction false} OneReplyPerEpisode(s: System, policy: Policy, es: seq<Event>, episode: string)
    requires Ok(s, policy) && AllInTime(s, policy, es)
    ensures AcceptedIn(s, policy, es, episode) <= 1
    decreases |es|
  {
    if es != [] {
      NextIsOk(s, policy, es[0]);
      if s.record.episodeId == episode && AddsReceipt(s, policy, es[0]) {
        AcceptChecksAgain(s, policy, es[0]);
        SpentAcceptsNone(Next(s, policy, es[0]), policy, es[1..], episode);
      } else {
        OneReplyPerEpisode(Next(s, policy, es[0]), policy, es[1..], episode);
      }
    }
  }

  // ----- A stale poll changes nothing

  /** A poll's save changes the record only if it still is notified, in the episode and at the cursor
    that the poll read; then it touches nothing but the cursor, the switch, the time and, to expire,
    the status. */
  lemma SaveTouchesOnlyWhatItSaw(s: System, policy: Policy, job: nat)
    requires Ok(s, policy) && job < |s.jobs|
    ensures
      var seen, r, r' := s.jobs[job].seen, s.record, Next(s, policy, PollSave(job)).record;
      && (r' != r ==> r.status.Notified? && r.episodeId == seen.episodeId && r.replyCursor == seen.replyCursor)
      && r' == r.(status := r'.status, replyCursor := r'.replyCursor,
                  remoteResumeEnabled := r'.remoteResumeEnabled, updatedAt := r'.updatedAt)
      && (r'.status == r.status || (r'.status.Expired? && s.jobs[job].at > seen.createdAt + policy.replyWindow))
      && (r'.remoteResumeEnabled ==> r.remoteResumeEnabled)
  {
    assert s.jobs[job] in s.jobs && JobOk(s.jobs[job], policy, s);
  }

  /** A record that an accepted reply reopened, or whose cursor is closed, or that a new episode
    replaced, is never changed by a poll that read an earlier record. */
  lemma StalePollSavesNothing(s: System, policy: Policy, job: nat)
    requires Ok(s, policy) && job < |s.jobs|
    requires
      || !s.record.status.Notified?
      || s.record.replyCursor.Closed?
      || s.record.episodeId != s.jobs[job].seen.episodeId
    ensures Next(s, policy, PollSave(job)).record == s.record
  {
    assert s.jobs[job] in s.jobs && JobOk(s.jobs[job], policy, s);
  }

  // ----- What one poll of a closed gate leaves

  /** A poll reads and, with nothing in between, saves. */
  function AfterOnePoll(s: System, policy: Policy, contextIsValid: bool, position: string): System {
    var t := Next(s, policy, PollRead(contextIsValid, position));
    if |t.jobs| > |s.jobs| then Next(t, policy, PollSave(|t.jobs| - 1)) else t
  }

  /** An undisturbed poll. Of a posted notice with an open cursor it ends the episode's replies exactly when
    no later poll could accept one, and expires the record exactly when the window alone is over; otherwise
    it only moves the cursor, and only through an open gate. With escalation off, or no posted notice, or
    the cursor closed, it changes nothing. */
  lemma OnePollSettles(s: System, policy: Policy, contextIsValid: bool, position: string)
    ensures
      var r, r' := s.record, AfterOnePoll(s, policy, contextIsValid, position).record;
      var over := s.clock > r.createdAt + policy.replyWindow;
      if !policy.enabled || r.status != Notified || r.lastNotifiedAt == None || r.replyCursor == Closed then r' == r
      else if !r.remoteResumeEnabled || over || r.reopenCount >= policy.maxReopens || !contextIsValid then
        r' == r.(replyCursor := Closed, remoteResumeEnabled := false, updatedAt := s.clock,
                 status := if r.remoteResumeEnabled && over && contextIsValid then Expired else Notified)
      else if ReadsAllowedHost(r, policy) then r' == r.(replyCursor := At(position), updatedAt := s.clock)
      else r' == r
  {
    GateIsOpenExactlyWhen(s.record, policy, s.clock);
    var t := Next(s, policy, PollRead(contextIsValid, position));
    if |t.jobs| > |s.jobs| {
      assert t.jobs == s.jobs + [t.jobs[|s.jobs|]];
    }
  }

  // ----- Reopens are counted and bounded

  /** Accepted replies minus reopens: the same in the store and in every copy. */
  ghost predicate CountsMatch(s: System, offset: int) {
    && |s.record.acceptedReplies| - s.record.reopenCount == offset
    && forall seen | seen in s.deliveries :: |seen.acceptedReplies| - seen.reopenCount == offset
  }

  lemma NextKeepsMatch(s: System, policy: Policy, e: Event, offset: int)
    requires CountsMatch(s, offset)
    ensures CountsMatch(Next(s, policy, e), offset)
  {
    var t := Next(s, policy, e);
    if e.DeliverySave? && e.delivery < |s.deliveries| {
      assert s.deliveries[e.delivery] in s.deliveries;
      DeliveryEpisode(s, policy, e);
    }
    OneStepCounts(s, policy, e);
    assert forall seen | seen in t.deliveries :: seen in s.deliveries || seen == s.record;
  }

  /** One step keeps the replies or adds one, or is a delivery's write, which restores those it read. */
  lemma OneStepCounts(s: System, policy: Policy, e: Event)
    ensures
      var r, r' := s.record, Next(s, policy, e).record;
      if Writes(s, policy, e)
        then (r'.acceptedReplies, r'.reopenCount)
               == (s.deliveries[e.delivery].acceptedReplies, s.deliveries[e.delivery].reopenCount)
        else
          || (r'.acceptedReplies, r'.reopenCount) == (r.acceptedReplies, r.reopenCount)
          || (exists receipt ::
                r'.acceptedReplies == r.acceptedReplies + [receipt] && r'.reopenCount == r.reopenCount + 1)
  {
    if Writes(s, policy, e) {
      DeliveryEpisode(s, policy, e);
    }
  }

  /** No accepted reply is lost in any step of the run. */
  predicate KeepsReplies(s: System, policy: Policy, es: seq<Event>)
    decreases |es|
  {
    es != [] ==>
      && s.record.acceptedReplies <= Next(s, policy, es[0]).record.acceptedReplies
      && KeepsReplies(Next(s, policy, es[0]), policy, es[1..])
  }

  /** No delivery writes a copy that lacks a reply the store has by then. */
  predicate NoLateWrite(s: System, policy: Policy, es: seq<Event>)
    decreases |es|
  {
    es != [] ==>
      && (Writes(s, policy, es[0]) ==> s.record.acceptedReplies <= s.deliveries[es[0].delivery].acceptedReplies)
      && NoLateWrite(Next(s, policy, es[0]), policy, es[1..])
  }

  lemma {:induction false} RepliesKeptByCopies(s: System, policy: Policy, es: seq<Event>)
    ensures KeepsReplies(s, policy, es) <==> NoLateWrite(s, policy, es)
    decreases |es|
  {
    if es != [] {
      OneStepCounts(s, policy, es[0]);
      RepliesKeptByCopies(Next(s, policy, es[0]), policy, es[1..]);
    }
  }

  /** `late[i]` says that a reply was accepted since delivery `i` read its copy. */
  function AfterStep(late: seq<bool>, s: System, policy: Policy, e: Event): seq<bool>
    requires |late| == |s.deliveries|
  {
    if AddsReceipt(s, policy, e) then seq(|late|, _ => true)
    else if e.DeliveryRead? && AwaitsNotice(s.record) then late + [false]
    else if (e.DeliverySave? || e.DeliveryDrop?) && e.delivery < |late| then Without(late, e.delivery)
    else late
  }

  /** No delivery writes after a reply was accepted since its read. */
  predicate NoReplySinceRead(s: System, policy: Policy, es: seq<Event>, late: seq<bool>)
    requires |late| == |s.deliveries|
    decreases |es|
  {
    es != [] ==>
      && !(Writes(s, policy, es[0]) && late[es[0].delivery])
      && NoReplySinceRead(Next(s, policy, es[0]), policy, es[1..], AfterStep(late, s, policy, es[0]))
  }

  /** A copy lacks replies of the store exactly when one was accepted since its read. */
  ghost predicate Tracks(s: System, late: seq<bool>) {
    && |late| == |s.deliveries|
    && forall i | 0 <= i < |late| :: CopyTracks(s.record, s.deliveries[i], late[i])
  }

  ghost predicate CopyTracks(r: Record, seen: Record, late: bool) {
    if late then |seen.acceptedReplies| < |r.acceptedReplies| else seen.acceptedReplies == r.acceptedReplies
  }

  lemma StepTracks(s: System, policy: Policy, e: Event, late: seq<bool>)
    requires Tracks(s, late) && !(Writes(s, policy, e) && late[e.delivery])
    ensures Tracks(Next(s, policy, e), AfterStep(late, s, policy, e))
  {
    var t, late' := Next(s, policy, e), AfterStep(late, s, policy, e);
    if AddsReceipt(s, policy, e) {
      AcceptChecksAgain(s, policy, e);
    }
    if Writes(s, policy, e) {
      DeliveryEpisode(s, policy, e);
      assert CopyTracks(s.record, s.deliveries[e.delivery], late[e.delivery]);
    }
    assert t.record.acceptedReplies == s.record.acceptedReplies || AddsReceipt(s, policy, e);
    forall i | 0 <= i < |late'|
      ensures CopyTracks(t.record, t.deliveries[i], late'[i])
    {
      if i < |late| {
        assert CopyTracks(s.record, s.deliveries[i], late[i]);
      }
      if i + 1 < |late| {
        assert CopyTracks(s.record, s.deliveries[i + 1], late[i + 1]);
      }
    }
  }

  /** Exactly when a run loses no accepted reply: no delivery writes after a reply was accepted since its
    read. */
  lemma {:induction false} RepliesKeptExactlyWhen(s: System, policy: Policy, es: seq<Event>, late: seq<bool>)
    requires Tracks(s, late)
    ensures KeepsReplies(s, policy, es) <==> NoReplySinceRead(s, policy, es, late)
    decreases |es|
  {
    if es != [] {
      OneStepCounts(s, policy, es[0]);
      if Writes(s, policy, es[0]) {
        assert CopyTracks(s.record, s.deliveries[es[0].delivery], late[es[0].delivery]);
      }
      if !(Writes(s, policy, es[0]) && late[es[0].delivery]) {
        StepTracks(s, policy, es[0], late);
        RepliesKeptExactlyWhen(Next(s, policy, es[0]), policy, es[1..], AfterStep(late, s, policy, es[0]));
      }
    }
  }

  /** Over any run and any number of episodes the reopen count stays within the limit and counts the
    accepted replies; and it only grows, with the replies, if no delivery writes late. */
  lemma {:induction false} ReopensAreBounded(s: System, policy: Policy, es: seq<Event>, offset: int)
    requires Ok(s, policy) && CountsMatch(s, offset)
    ensures
      var t := Run(s, policy, es);
      && Ok(t, policy) && t.record.reopenCount <= policy.maxReopens
      && |t.record.acceptedReplies| - t.record.reopenCount == offset
      && (NoLateWrite(s, policy, es) ==>
            && s.record.acceptedReplies <= t.record.acceptedReplies
            && s.record.reopenCount <= t.record.reopenCount)
    decreases |es|
  {
    if es != [] {
      NextIsOk(s, policy, es[0]);
      NextKeepsMatch(s, policy, es[0], offset);
      OneStepCounts(s, policy, es[0]);
      ReopensAreBounded(Next(s, policy, es[0]), policy, es[1..], offset);
    }
  }

  // ----- Where it fails

  const WAITING: Record :=
    Record("e", PendingNotification, None, None, 0, None, NoCursor, [], 0, true, 0, 0)

  const POLICY: Policy := Policy(3, 3600, true, ["github.com"], 3)

  const ISSUE: Target := Target("github.com", "o/r", 1)

  /** A delivery whose check was empty and whose post got the comment `id`. */
  function SaveOf(id: int): Event {
    var bot := Identity("bot", Some(7));
    DeliverySave(0, Attempt(0, Some(ISSUE), "m", true, Some(bot), None, Posted(id, 0)), [], "m")
  }

  const STORED: System := System(WAITING, 0, [], [], {"e"})

  function NotifiedBy(id: int): Record {
    Record("e", Notified, Some(ISSUE), Some(id), 1, Some(0), NoCursor, [], 0, true, 0, 0)
  }

  /** The delivery makes the waiting record notified, with an open gate. */
  lemma SaveNotifies(id: int)
    ensures SavedCopy(WAITING, POLICY, SaveOf(id)) == Some(NotifiedBy(id))
    ensures ReplyClosedCause(NotifiedBy(id), POLICY, 0).None?
  {
    PostsUnlessMarkerRead(WAITING, [], POLICY, "m", SaveOf(id).a);
    assert CaseFold(POLICY.allowedHosts[0]) == CaseFold("github.com");
  }

  /** A dashboard reply accepted while a delivery is under way: the delivery's save takes back the
    reopen, its count and its receipt, and the record waits for a reply again. */
  lemma LateSaveLosesReply(s: System, t: System)
    requires s == Run(STORED, POLICY, [DeliveryRead, DashboardAccept(7, 0, true)])
    requires t == Next(s, POLICY, SaveOf(1))
    ensures s.record.status.Reopened? && s.record.acceptedReplies == [7] && s.record.reopenCount == 1
    ensures t.record == NotifiedBy(1) && ReplyClosedCause(t.record, POLICY, t.clock).None?
  {
    SaveNotifies(1);
    var s1 := STORED.(deliveries := [WAITING]);
    assert s1 == Next(STORED, POLICY, DeliveryRead);
    assert [DeliveryRead, DashboardAccept(7, 0, true)][1..] == [DashboardAccept(7, 0, true)];
    assert s == Run(s1, POLICY, [DashboardAccept(7, 0, true)]);
    assert [DashboardAccept(7, 0, true)][1..] == [];
    assert s == Next(s1, POLICY, DashboardAccept(7, 0, true));
  }

  /** A poll that finds no valid decision context closes the record. */
  lemma PollClosesNotified(s: System)
    requires s == STORED.(record := NotifiedBy(1), deliveries := [WAITING])
    ensures AfterOnePoll(s, POLICY, false, "") == s.(record := NotifiedBy(1).ClosedToReplies(0))
  {
    SaveNotifies(1);
    var job := Job(NotifiedBy(1), Close, 0);
    var read := s.(jobs := [job]);
    assert Next(s, POLICY, PollRead(false, "")) == read;
    assert Without([job], 0) == [];
    assert Next(read, POLICY, PollSave(0)) == s.(record := NotifiedBy(1).ClosedToReplies(0));
  }

  lemma FirstSaveIsClosed(s: System, t: System)
    requires s == STORED.(deliveries := [WAITING, WAITING])
    requires t == AfterOnePoll(Next(s, POLICY, SaveOf(1)), POLICY, false, "")
    ensures t == STORED.(record := NotifiedBy(1).ClosedToReplies(0), deliveries := [WAITING])
    ensures ReplyClosedCause(t.record, POLICY, t.clock) == Some(NoInstructions)
  {
    SaveNotifies(1);
    PollClosesNotified(Next(s, POLICY, SaveOf(1)));
  }

  /** Two deliveries under way: one saves, a poll closes the gate of the notified record, and the save
    of the other opens it again in the same episode. */
  lemma LateSaveOpensClosedGate(s: System, t: System, u: System)
    requires s == STORED.(deliveries := [WAITING, WAITING])
    requires t == AfterOnePoll(Next(s, POLICY, SaveOf(1)), POLICY, false, "")
    requires u == Next(t, POLICY, SaveOf(2))
    ensures s == Next(Next(STORED, POLICY, DeliveryRead), POLICY, DeliveryRead)
    ensures t.record.status.Notified? && ReplyClosedCause(t.record, POLICY, t.clock) == Some(NoInstructions)
    ensures u.record == NotifiedBy(2) && ReplyClosedCause(u.record, POLICY, u.clock).None?
  {
    SaveNotifies(2);
    FirstSaveIsClosed(s, t);
  }

  lemma OpenCopyIsWritten(v: System)
    requires v.deliveries == [WAITING] && v.clock == 0
    ensures WritesOpenCopy(v, POLICY, SaveOf(2), "e") && Next(v, POLICY, SaveOf(2)).record == NotifiedBy(2)
  {
    SaveNotifies(2);
  }

  lemma WriteIsSeen(t: System, v: System)
    requires v == Next(t, POLICY, NewEpisode("f", true, false)) && WritesOpenCopy(v, POLICY, SaveOf(2), "e")
    ensures !NoneWritten(t, POLICY, [NewEpisode("f", true, false), SaveOf(2)], "e")
  {
    var es := [NewEpisode("f", true, false), SaveOf(2)];
    assert es[1..] == [SaveOf(2)];
    assert !NoneWritten(v, POLICY, es[1..], "e");
  }

  /** The same, but a new episode begins before the second save: the save brings the old episode back, with
    an open gate, over a record that is not shut itself. */
  lemma LateSaveBringsEpisodeBack(s: System, t: System, v: System, u: System)
    requires s == STORED.(deliveries := [WAITING, WAITING])
    requires t == AfterOnePoll(Next(s, POLICY, SaveOf(1)), POLICY, false, "")
    requires v == Next(t, POLICY, NewEpisode("f", true, false))
    requires u == Next(v, POLICY, SaveOf(2))
    ensures t.record.episodeId == "e" && ReplyClosedCause(t.record, POLICY, t.clock) == Some(NoInstructions)
    ensures v.record.episodeId == "f" && !ShutForGood(v.record, POLICY, v.clock)
    ensures u.record == NotifiedBy(2) && ReplyClosedCause(u.record, POLICY, u.clock).None?
    ensures !NoneWritten(t, POLICY, [NewEpisode("f", true, false), SaveOf(2)], "e")
  {
    FirstSaveIsClosed(s, t);
    SaveNotifies(2);
    assert v.deliveries == [WAITING] && v.record.status.PendingNotification? && v.clock == 0;
    OpenCopyIsWritten(v);
    WriteIsSeen(t, v);
  }
}
