/** From a notice to the replies to it: what a delivery stores and what the polls then read. */
module NoticeReplies {
  import opened Wrappers
  import opened CommentThread
  import opened EscalationRecords
  import opened NoticeDelivery
  import P = ReplyPoller
  import C = ReplyCoverage
  import Q = ReplyProgress

  /** An attempt makes the record notified, on a thread that later grew to `after`, in which the comment that
    the record names is number `k`. */
  ghost predicate Notifies(r: Record, thread: Thread, policy: Policy, marker: string, a: Attempt, after: Thread, k: nat)
  {
    var d := Deliver(r, thread, policy, marker, a);
    && r.status != Notified && d.record.status == Notified
    && C.Ordered(after) && C.Shows(P.Listed(thread), after)
    && k < |after| && Some(after[k].id) == d.record.commentId
    && (d.added.Some? ==> d.added.value in after)
  }

  lemma IdNames(after: Thread, i: nat, k: nat)
    requires C.Ordered(after) && i < |after| && k < |after| && after[i].id == after[k].id
    ensures i == k
  {
    assert i < k ==> C.Before(after[i], after[k]);
    assert k < i ==> C.Before(after[k], after[i]);
  }

  /** Replies are read from the time of that comment on, or from an earlier time that the record had. */
  lemma ReadSinceNotice(r: Record, thread: Thread, policy: Policy, marker: string, a: Attempt, after: Thread, k: nat)
    requires Notifies(r, thread, policy, marker, a, after, k)
    ensures
      var d := Deliver(r, thread, policy, marker, a);
      d.record.lastNotifiedAt
        == if d.added.None? && r.lastNotifiedAt.Some? then r.lastNotifiedAt else Some(after[k].created)
  {
    var d := Deliver(r, thread, policy, marker, a);
    NotifiedNamesANotice(r, thread, policy, marker, a);
    var c: Comment;
    if d.added.Some? {
      c := d.added.value;
    } else {
      c :| c in thread && IsRecognised(c, marker, a)
        && Names(d.record, c, if r.lastNotifiedAt.Some? then r.lastNotifiedAt.value else c.created);
      assert c in after;
    }
    var i :| 0 <= i < |after| && after[i] == c;
    IdNames(after, i, k);
  }

  lemma RepliesAreSince(r: Record, thread: Thread, policy: Policy, marker: string, a: Attempt, after: Thread,
                        k: nat, i: nat)
    requires Notifies(r, thread, policy, marker, a, after, k) && k <= i < |after|
    requires r.lastNotifiedAt.Some? ==> r.lastNotifiedAt.value <= after[k].created
    ensures
      var since := Deliver(r, thread, policy, marker, a).record.lastNotifiedAt;
      since.Some? && after[i].created >= since.value
  {
    ReadSinceNotice(r, thread, policy, marker, a, after, k);
    assert k == i || C.Before(after[k], after[i]);
  }

  /** After the notice, over any polls: a comment that stands after it and that the cursor has behind it was
    examined. */
  lemma NoReplyIsLost(r: Record, thread: Thread, policy: Policy, marker: string, a: Attempt, after: Thread, k: nat,
                      es: seq<C.PollEvent>, i: nat)
    requires Notifies(r, thread, policy, marker, a, after, k) && k <= i < |after|
    requires r.lastNotifiedAt.Some? ==> r.lastNotifiedAt.value <= after[k].created
    requires C.AllShow(es, after)
    ensures
      var since := Deliver(r, thread, policy, marker, a).record.lastNotifiedAt;
      && since.Some?
      && var reader := C.AfterPolls(C.Reader(None, {}), since.value, es);
      C.Behind(after, P.Start(reader.cursor, since.value), i) ==> after[i].id in reader.examined
  {
    RepliesAreSince(r, thread, policy, marker, a, after, k, i);
    C.NoCommentIsLost(after, Deliver(r, thread, policy, marker, a).record.lastNotifiedAt.value, es, i);
  }

  /** And once the thread stays quiet, every comment after the notice is examined, within the polls that the
    listing from the cursor's page on takes. */
  lemma EveryReplyIsRead(r: Record, thread: Thread, policy: Policy, marker: string, a: Attempt, after: Thread, k: nat,
                         es: seq<C.PollEvent>, verdict: Comment -> P.Verdict, n: nat, i: nat)
    requires Notifies(r, thread, policy, marker, a, after, k) && k <= i < |after|
    requires r.lastNotifiedAt.Some? ==> r.lastNotifiedAt.value <= after[k].created
    requires C.AllShow(es, after) && Q.RejectsAll(verdict, after)
    requires
      var since := Deliver(r, thread, policy, marker, a).record.lastNotifiedAt;
      && since.Some?
      && var c := P.Start(C.AfterPolls(C.Reader(None, {}), since.value, es).cursor, since.value);
      C.PageStart(after, c.since, c.page) + n == |after|
    ensures
      var since := Deliver(r, thread, policy, marker, a).record.lastNotifiedAt.value;
      var reader := C.AfterPolls(C.Reader(None, {}), since, es);
      after[i].id in C.AfterPolls(reader, since, Q.QuietPolls(after, verdict, Q.Polls(n))).examined
  {
    RepliesAreSince(r, thread, policy, marker, a, after, k, i);
    Q.QuietThreadIsRead(after, Deliver(r, thread, policy, marker, a).record.lastNotifiedAt.value, es, verdict, n, i);
  }
}
