/** `deliver_escalation_notification`: post the notice of a halted run, or find it already posted. */
module NoticeDelivery {
  import opened Wrappers
  import opened CommentThread
  import opened EscalationRecords
  import opened Sequences

  const MAX_CHECKED_PAGES: nat := 3

  datatype Identity = Identity(login: string, id: Option<int>)

  /** How a post ends. A lost post reports an error and can have landed. */
  datatype Post = Posted(id: int, created: int) | LostPost(landed: bool, id: int, created: int)

  /** One attempt: the time, the target it resolved, the rendered notice and whether it carries
    reply instructions, the identity call, the first failing page of the listing, and the post. */
  datatype Attempt = Attempt(now: int, target: Option<Target>, body: string, withInstructions: bool,
                             identity: Option<Identity>, failingPage: Option<nat>, post: Post)

  predicate Verified(a: Attempt) {
    a.identity.Some? && (a.identity.value.login != "" || a.identity.value.id.Some?)
  }

  // ----- Finding an earlier notice

  predicate HoldsMarker(body: string, marker: string) {
    exists i | 0 <= i <= |body| :: marker <= body[i..]
  }

  /** The marker stands somewhere in the body. */
  lemma HoldsMarkerExactlyWhen(body: string, marker: string)
    ensures HoldsMarker(body, marker) <==> exists before: string, after :: body == before + (marker + after)
  {
    if i :| 0 <= i <= |body| && marker <= body[i..] {
      var after := body[i + |marker|..];
      assert body == body[..i] + (marker + after);
    }
    if before: string, after :| body == before + (marker + after) {
      assert body[|before|..] == marker + after;
    }
  }

  function UnixNewlines(s: string): string {
    if s == "" then ""
    else if s[0] == '\r' && |s| > 1 && s[1] == '\n' then "\n" + UnixNewlines(s[2..])
    else [s[0]] + UnixNewlines(s[1..])
  }

  predicate HasNoCrLf(s: string) {
    |s| > 1 ==> !(s[0] == '\r' && s[1] == '\n') && HasNoCrLf(s[1..])
  }

  lemma UnixOfOne(c: char, t: string)
    requires !(c == '\r' && t != "" && t[0] == '\n')
    ensures UnixNewlines([c] + t) == [c] + UnixNewlines(t)
  {
    assert ([c] + t)[1..] == t;
  }

  lemma UnixOfCrLf(t: string)
    ensures UnixNewlines("\r\n" + t) == "\n" + UnixNewlines(t)
  {
    assert ("\r\n" + t)[2..] == t;
  }

  lemma {:induction false} NewlinesOfPiece(piece: string, rest: string)
    requires HasNoCrLf(piece) && (rest == "" || "\r\n" <= rest)
    ensures UnixNewlines(piece + rest) == piece + UnixNewlines(rest)
  {
    if piece == "" {
      assert piece + rest == rest;
    } else {
      var tail := piece[1..] + rest;
      NewlinesOfPiece(piece[1..], rest);
      UnixOfOne(piece[0], tail);
      assert piece + rest == [piece[0]] + tail;
      assert piece + UnixNewlines(rest) == [piece[0]] + (piece[1..] + UnixNewlines(rest));
    }
  }

  /** Every `\r\n` becomes `\n`, and nothing else changes. */
  lemma {:induction false} NewlinesBecomeUnix(pieces: seq<string>)
    requires pieces != [] && forall i | 0 <= i < |pieces| :: HasNoCrLf(pieces[i])
    ensures UnixNewlines(Joined(pieces, "\r\n")) == Joined(pieces, "\n")
  {
    if |pieces| == 1 {
      NewlinesOfPiece(pieces[0], "");
      assert pieces[0] + "" == pieces[0];
    } else {
      var rest := Joined(pieces[1..], "\r\n");
      NewlinesBecomeUnix(pieces[1..]);
      NewlinesOfPiece(pieces[0], "\r\n" + rest);
      UnixOfCrLf(rest);
    }
  }

  predicate IsFactoryAuthor(c: Comment, a: Attempt) {
    && Verified(a)
    && var identity := a.identity.value;
    if identity.id.Some? && c.userId.Some? then c.userId == identity.id
    else identity.login != "" && c.login != "" && CaseFold(c.login) == CaseFold(identity.login)
  }

  predicate IsOurNotice(c: Comment, a: Attempt) {
    UnixNewlines(c.body) == UnixNewlines(a.body) && IsFactoryAuthor(c, a)
  }

  function Marked(cs: seq<Comment>, marker: string): (ms: seq<Comment>) {
    if cs == [] then []
    else (if HoldsMarker(cs[0].body, marker) then [cs[0]] else []) + Marked(cs[1..], marker)
  }

  /** The comments with the marker that the check sees, from `page` on: it stops at the first page
    with one, at a short page, at the third page, and at a listing error. */
  function SeenMarked(thread: Thread, since: int, marker: string, failingPage: Option<nat>, page: nat): seq<Comment>
    requires page >= 1
    decreases MAX_CHECKED_PAGES + 1 - page
  {
    if page > MAX_CHECKED_PAGES || failingPage == Some(page) then []
    else
      var cs := Page(thread, since, page);
      var ms := Marked(cs, marker);
      if ms != [] || |cs| < PER_PAGE then ms
      else SeenMarked(thread, since, marker, failingPage, page + 1)
  }

  method MarkedOn(existing: seq<Comment>, marker: string) returns (marked: seq<Comment>)
    ensures marked == Marked(existing, marker)
  {
    marked := [];
    for i := 0 to |existing|
      invariant marked + Marked(existing[i..], marker) == Marked(existing, marker)
    {
      assert existing[i..][1..] == existing[i + 1..];
      if HoldsMarker(existing[i].body, marker) {
        marked := marked + [existing[i]];
      }
    }
  }

  method FindMarked(thread: Thread, since: int, marker: string, failingPage: Option<nat>)
    returns (marked: seq<Comment>)
    ensures marked == SeenMarked(thread, since, marker, failingPage, 1)
  {
    for page := 1 to MAX_CHECKED_PAGES + 1
      invariant SeenMarked(thread, since, marker, failingPage, page)
             == SeenMarked(thread, since, marker, failingPage, 1)
    {
      if failingPage == Some(page) {
        return [];
      }
      var existing := Page(thread, since, page);
      marked := MarkedOn(existing, marker);
      if marked != [] || |existing| < PER_PAGE {
        return;
      }
    }
    return [];
  }

  function FirstOurs(ms: seq<Comment>, a: Attempt): (r: Option<Comment>)
    ensures r.Some? ==> r.value in ms && IsOurNotice(r.value, a)
    ensures r.None? ==> forall m | m in ms :: !IsOurNotice(m, a)
  {
    if ms == [] then None
    else if IsOurNotice(ms[0], a) then Some(ms[0])
    else FirstOurs(ms[1..], a)
  }

  // ----- Delivery

  /** What an attempt leaves: the record, and the comment it added to the thread, if any. */
  datatype Delivery = Delivery(record: Record, added: Option<Comment>)

  function FailedClosed(r: Record, now: int): Record {
    r.(status := NotificationFailed, remoteResumeEnabled := false, replyCursor := Closed, updatedAt := now)
  }

  function NotifiedWith(r: Record, commentId: int, notifiedAt: int, a: Attempt): Record {
    r.(status := Notified, commentId := Some(commentId), lastNotifiedAt := Some(notifiedAt),
       remoteResumeEnabled := a.withInstructions,
       replyCursor := if a.withInstructions then NoCursor else Closed, updatedAt := a.now)
  }

  /** The notice as it stands in the thread once it landed. */
  function NoticeComment(a: Attempt): Comment
    requires a.identity.Some?
  {
    Comment(a.post.id, a.post.created, a.body, a.identity.value.login, a.identity.value.id)
  }

  const LOOK_BACK: int := 120

  function Deliver(r: Record, thread: Thread, policy: Policy, marker: string, a: Attempt): Delivery {
    if !policy.enabled || r.status.Notified? then Delivery(r, None)
    else if r.deliveryAttempts >= policy.maxNotificationAttempts then
      Delivery(if r.status.NotificationFailed? then r else FailedClosed(r, a.now), None)
    else if a.target.None? then
      Delivery(FailedClosed(r.(deliveryAttempts := r.deliveryAttempts + 1), a.now), None)
    else
      var tried := r.(deliveryAttempts := r.deliveryAttempts + 1, target := a.target);
      var marked := SeenMarked(thread, r.createdAt - LOOK_BACK, marker, a.failingPage, 1);
      var ours := FirstOurs(marked, a);
      if ours.Some? then
        var notifiedAt := if r.lastNotifiedAt.Some? then r.lastNotifiedAt.value else ours.value.created;
        Delivery(NotifiedWith(tried, ours.value.id, notifiedAt, a), None)
      else if marked != [] || !Verified(a) then
        Delivery(FailedClosed(tried, a.now).(lastNotifiedAt := None), None)
      else
        match a.post
        case Posted(id, created) => Delivery(NotifiedWith(tried, id, created, a), Some(NoticeComment(a)))
        case LostPost(landed, _, _) =>
          var failed :=
            if tried.deliveryAttempts >= policy.maxNotificationAttempts then FailedClosed(tried, a.now)
            else tried.(status := PendingNotification, updatedAt := a.now);
          Delivery(failed, if landed then Some(NoticeComment(a)) else None)
  }

  // ----- One attempt

  /** An attempt posts exactly when it is due, its target and its own identity are known, and the
    check saw no comment with the marker. */
  lemma PostsExactlyWhen(r: Record, thread: Thread, policy: Policy, marker: string, a: Attempt)
    ensures
      var seen := SeenMarked(thread, r.createdAt - LOOK_BACK, marker, a.failingPage, 1);
      var landed := a.post.Posted? || a.post.landed;
      Deliver(r, thread, policy, marker, a).added.Some? <==>
        && policy.enabled && !r.status.Notified? && r.deliveryAttempts < policy.maxNotificationAttempts
        && a.target.Some? && a.identity.Some? && (a.identity.value.login != "" || a.identity.value.id.Some?)
        && seen == [] && landed
  {
  }

  /** What holds of a record over any deliveries: attempts within the maximum, and a failed notice
    has its cursor closed and remote resume off. */
  predicate DeliveryOk(r: Record, policy: Policy) {
    && r.deliveryAttempts <= policy.maxNotificationAttempts
    && (r.status.NotificationFailed? ==> r.replyCursor.Closed? && !r.remoteResumeEnabled)
  }

  lemma DeliverIsOk(r: Record, thread: Thread, policy: Policy, marker: string, a: Attempt)
    requires DeliveryOk(r, policy)
    ensures
      var r' := Deliver(r, thread, policy, marker, a).record;
      && DeliveryOk(r', policy)
      && (r'.episodeId, r'.createdAt, r'.reopenCount, r'.acceptedReplies)
           == (r.episodeId, r.createdAt, r.reopenCount, r.acceptedReplies)
  {
  }

  function Ours(r: Record, thread: Thread, marker: string, a: Attempt): Option<Comment> {
    FirstOurs(SeenMarked(thread, r.createdAt - LOOK_BACK, marker, a.failingPage, 1), a)
  }

  /** The record names comment `c`, and the replies to it are read from `since` on. */
  predicate Names(r: Record, c: Comment, since: int) {
    r.commentId == Some(c.id) && r.lastNotifiedAt == Some(since)
  }

  /** The comment holds the marker and was written by the factory's own account, with the body of the notice. */
  predicate IsRecognised(c: Comment, marker: string, a: Attempt) {
    && HoldsMarker(c.body, marker) && UnixNewlines(c.body) == UnixNewlines(a.body)
    && a.identity.Some?
    && var own := a.identity.value;
    if own.id.Some? && c.userId.Some? then own.id == c.userId
    else own.login != "" && CaseFold(own.login) == CaseFold(c.login)
  }

  lemma OursIsRecognised(r: Record, thread: Thread, marker: string, a: Attempt)
    requires Ours(r, thread, marker, a).Some?
    ensures
      var c := Ours(r, thread, marker, a).value;
      c in thread && IsRecognised(c, marker, a)
  {
    var c := Ours(r, thread, marker, a).value;
    SeenIsMarked(thread, r.createdAt - LOOK_BACK, marker, a.failingPage, 1, c);
    assert IsOurNotice(c, a);
  }

  lemma NotifiedByOurs(r: Record, thread: Thread, policy: Policy, marker: string, a: Attempt)
    requires !r.status.Notified? && Deliver(r, thread, policy, marker, a).record.status.Notified?
    requires Ours(r, thread, marker, a).Some?
    ensures
      var d, c := Deliver(r, thread, policy, marker, a), Ours(r, thread, marker, a).value;
      && d.added.None?
      && Names(d.record, c, if r.lastNotifiedAt.Some? then r.lastNotifiedAt.value else c.created)
  {
  }

  lemma NotifiedByPost(r: Record, thread: Thread, policy: Policy, marker: string, a: Attempt)
    requires !r.status.Notified? && Deliver(r, thread, policy, marker, a).record.status.Notified?
    requires Ours(r, thread, marker, a).None?
    ensures
      var d := Deliver(r, thread, policy, marker, a);
      && d.added.Some? && Names(d.record, d.added.value, d.added.value.created)
      && a.identity.Some? && a.post.Posted?
      && d.added.value == Comment(a.post.id, a.post.created, a.body, a.identity.value.login, a.identity.value.id)
  {
  }

  lemma NotifiedAtTarget(r: Record, thread: Thread, policy: Policy, marker: string, a: Attempt)
    requires !r.status.Notified? && Deliver(r, thread, policy, marker, a).record.status.Notified?
    ensures
      var d := Deliver(r, thread, policy, marker, a);
      d.record.target == a.target && a.target.Some? && (d.added.Some? ==> a.post.Posted?)
  {
  }

  /** A record that becomes notified names the comment that this attempt posted, with the body of the notice,
    and replies are read from the time GitHub gave that comment; or it names a recognised comment of the
    thread, and replies are read from its time, or from the time the record already had. */
  lemma NotifiedNamesANotice(r: Record, thread: Thread, policy: Policy, marker: string, a: Attempt)
    requires !r.status.Notified? && Deliver(r, thread, policy, marker, a).record.status.Notified?
    ensures
      var d := Deliver(r, thread, policy, marker, a);
      && (d.added.Some? ==>
            && Names(d.record, d.added.value, d.added.value.created) && d.added.value.body == a.body
            && a.post.Posted? && (d.added.value.id, d.added.value.created) == (a.post.id, a.post.created))
      && (d.added.None? ==>
            exists c | c in thread && IsRecognised(c, marker, a) ::
              Names(d.record, c, if r.lastNotifiedAt.Some? then r.lastNotifiedAt.value else c.created))
  {
    if Ours(r, thread, marker, a).Some? {
      NotifiedByOurs(r, thread, policy, marker, a);
      OursIsRecognised(r, thread, marker, a);
    } else {
      NotifiedByPost(r, thread, policy, marker, a);
    }
  }

  lemma {:induction false} Listed(thread: Thread, since: int, c: Comment)
    ensures c in CreatedSince(thread, since) <==> c in thread && c.created >= since
  {
    if thread != [] {
      Listed(thread[1..], since, c);
    }
  }

  lemma {:induction false} MarkedOfPage(cs: seq<Comment>, marker: string, c: Comment)
    ensures c in Marked(cs, marker) <==> c in cs && HoldsMarker(c.body, marker)
  {
    if cs != [] {
      MarkedOfPage(cs[1..], marker, c);
    }
  }

  lemma OnPage(thread: Thread, since: int, page: nat, marker: string, c: Comment)
    requires page >= 1 && c in Marked(Page(thread, since, page), marker)
    ensures c in thread && HoldsMarker(c.body, marker)
  {
    MarkedOfPage(Page(thread, since, page), marker, c);
    assert c in CreatedSince(thread, since);
    Listed(thread, since, c);
  }

  lemma {:induction false} SeenIsMarked(thread: Thread, since: int, marker: string, failingPage: Option<nat>,
                                        page: nat, c: Comment)
    requires page >= 1 && c in SeenMarked(thread, since, marker, failingPage, page)
    ensures c in thread && HoldsMarker(c.body, marker)
    decreases MAX_CHECKED_PAGES + 1 - page
  {
    var cs := Page(thread, since, page);
    var ms := Marked(cs, marker);
    if ms != [] || |cs| < PER_PAGE {
      assert SeenMarked(thread, since, marker, failingPage, page) == ms;
      OnPage(thread, since, page, marker, c);
    } else {
      assert SeenMarked(thread, since, marker, failingPage, page)
          == SeenMarked(thread, since, marker, failingPage, page + 1);
      SeenIsMarked(thread, since, marker, failingPage, page + 1, c);
    }
  }

  // ----- What a check sees

  /** How far into the listing a check from `page` on can read. */
  function CheckedFrom(failingPage: Option<nat>, page: nat): nat
    requires page >= 1
  {
    if failingPage.Some? && page <= failingPage.value <= MAX_CHECKED_PAGES then (failingPage.value - 1) * 100 else 300
  }

  function Checked(failingPage: Option<nat>): nat {
    CheckedFrom(failingPage, 1)
  }

  ghost predicate HasMarkerIn(listed: seq<Comment>, from: int, to: int, marker: string) {
    exists k | 0 <= k < |listed| && from <= k < to :: HoldsMarker(listed[k].body, marker)
  }

  lemma {:induction false} MarkedExactlyWhen(cs: seq<Comment>, marker: string)
    ensures Marked(cs, marker) != [] <==> exists i | 0 <= i < |cs| :: HoldsMarker(cs[i].body, marker)
  {
    if cs != [] {
      var rest := cs[1..];
      MarkedExactlyWhen(rest, marker);
      assert forall i | 0 <= i < |rest| :: rest[i] == cs[i + 1];
    }
  }

  lemma PageHasMarker(thread: Thread, since: int, page: nat, marker: string)
    requires page >= 1
    ensures
      Marked(Page(thread, since, page), marker) != [] <==>
        HasMarkerIn(CreatedSince(thread, since), (page - 1) * 100, page * 100, marker)
  {
    var cs, listed, from := Page(thread, since, page), CreatedSince(thread, since), (page - 1) * 100;
    MarkedExactlyWhen(cs, marker);
    assert forall i | 0 <= i < |cs| :: cs[i] == listed[from + i];
    if k :| 0 <= k < |listed| && from <= k < page * 100 && HoldsMarker(listed[k].body, marker) {
      assert cs[k - from] == listed[k];
    }
  }

  lemma ShortPageIsLast(thread: Thread, since: int, page: nat)
    requires page >= 1 && |Page(thread, since, page)| < PER_PAGE
    ensures |CreatedSince(thread, since)| <= page * 100
  {
  }

  lemma MarkerInParts(listed: seq<Comment>, from: int, mid: int, to: int, marker: string)
    requires from <= mid <= to
    ensures HasMarkerIn(listed, from, to, marker)
       <==> HasMarkerIn(listed, from, mid, marker) || HasMarkerIn(listed, mid, to, marker)
  {
  }

  /** What one page says of the listing up to `to`. */
  lemma PageDecides(thread: Thread, since: int, page: nat, marker: string, to: nat)
    requires page >= 1 && page * 100 <= to
    ensures
      var listed, cs := CreatedSince(thread, since), Page(thread, since, page);
      HasMarkerIn(listed, (page - 1) * 100, to, marker) <==>
        Marked(cs, marker) != [] || (|cs| == PER_PAGE && HasMarkerIn(listed, page * 100, to, marker))
  {
    var listed, cs := CreatedSince(thread, since), Page(thread, since, page);
    PageHasMarker(thread, since, page, marker);
    MarkerInParts(listed, (page - 1) * 100, page * 100, to, marker);
    if |cs| < PER_PAGE {
      ShortPageIsLast(thread, since, page);
      assert !HasMarkerIn(listed, page * 100, to, marker);
    }
  }

  ghost predicate SeesUpTo(thread: Thread, since: int, marker: string, failingPage: Option<nat>, page: nat,
                           from: int, to: int)
    requires page >= 1
  {
    var listed := CreatedSince(thread, since);
    SeenMarked(thread, since, marker, failingPage, page) != [] <==> HasMarkerIn(listed, from, to, marker)
  }

  lemma SeesOnePage(thread: Thread, since: int, marker: string, failingPage: Option<nat>, page: nat, to: nat)
    requires 1 <= page <= MAX_CHECKED_PAGES && failingPage != Some(page) && page * 100 <= to
    requires SeesUpTo(thread, since, marker, failingPage, page + 1, page * 100, to)
    ensures SeesUpTo(thread, since, marker, failingPage, page, (page - 1) * 100, to)
  {
    PageDecides(thread, since, page, marker, to);
  }

  lemma SeesNothing(thread: Thread, since: int, marker: string, failingPage: Option<nat>, page: nat)
    requires page > MAX_CHECKED_PAGES || failingPage == Some(page)
    requires page >= 1
    ensures SeesUpTo(thread, since, marker, failingPage, page, (page - 1) * 100, CheckedFrom(failingPage, page))
  {
  }

  /** A check sees a marker exactly when the part of the listing that it reads holds one. */
  lemma {:induction false} SeesExactlyWhen(thread: Thread, since: int, marker: string, failingPage: Option<nat>,
                                           page: nat)
    requires page >= 1
    ensures SeesUpTo(thread, since, marker, failingPage, page, (page - 1) * 100, CheckedFrom(failingPage, page))
    decreases MAX_CHECKED_PAGES + 1 - page
  {
    if page <= MAX_CHECKED_PAGES && failingPage != Some(page) {
      SeesExactlyWhen(thread, since, marker, failingPage, page + 1);
      SeesOnePage(thread, since, marker, failingPage, page, CheckedFrom(failingPage, page));
    } else {
      SeesNothing(thread, since, marker, failingPage, page);
    }
  }

  /** A complete check of at most 300 listed comments sees a marker that is there. */
  lemma CompleteCheckSees(thread: Thread, since: int, marker: string, c: Comment)
    requires c in thread && c.created >= since && HoldsMarker(c.body, marker)
    requires |CreatedSince(thread, since)| <= 300
    ensures SeenMarked(thread, since, marker, None, 1) != []
  {
    Listed(thread, since, c);
    SeesExactlyWhen(thread, since, marker, None, 1);
  }

  /** What makes an attempt due: the notice is on and not posted, attempts are left, and target and
    own identity are known. */
  predicate IsDue(r: Record, policy: Policy, a: Attempt) {
    && policy.enabled && !r.status.Notified? && r.deliveryAttempts < policy.maxNotificationAttempts
    && a.target.Some? && Verified(a)
  }

  predicate Lands(a: Attempt) {
    a.post.Posted? || a.post.landed
  }

  /** The same in terms of the listing: a due attempt posts exactly when what it reads of the listing
    of its own target holds no marker. */
  lemma PostsUnlessMarkerRead(r: Record, thread: Thread, policy: Policy, marker: string, a: Attempt)
    ensures
      Deliver(r, thread, policy, marker, a).added.Some? <==>
        && IsDue(r, policy, a) && Lands(a)
        && !HasMarkerIn(CreatedSince(thread, r.createdAt - 120), 0, Checked(a.failingPage), marker)
  {
    PostsExactlyWhen(r, thread, policy, marker, a);
    SeesExactlyWhen(thread, r.createdAt - LOOK_BACK, marker, a.failingPage, 1);
  }

  // ----- What one attempt leaves

  /** A failed notice: no reply can reach the run. */
  predicate IsFailedClosed(r: Record) {
    r.status == NotificationFailed && !r.remoteResumeEnabled && r.replyCursor == Closed
  }

  /** What no attempt touches. */
  predicate SameEpisode(r: Record, r': Record) {
    (r'.episodeId, r'.acceptedReplies, r'.reopenCount, r'.createdAt)
      == (r.episodeId, r.acceptedReplies, r.reopenCount, r.createdAt)
  }

  /** A record that needs no attempt is left alone, and one whose attempts are used up is only failed. */
  lemma NotTried(r: Record, thread: Thread, policy: Policy, marker: string, a: Attempt)
    requires !policy.enabled || r.status == Notified || r.deliveryAttempts >= policy.maxNotificationAttempts
    ensures
      var d := Deliver(r, thread, policy, marker, a);
      && d.added == None
      && (if !policy.enabled || r.status in {Notified, NotificationFailed} then d.record == r
          else IsFailedClosed(d.record) && d.record == r.(status := NotificationFailed, remoteResumeEnabled := false,
                                                          replyCursor := Closed, updatedAt := a.now))
  {
  }

  lemma OursExactlyWhen(r: Record, thread: Thread, marker: string, a: Attempt)
    ensures
      var seen := SeenMarked(thread, r.createdAt - LOOK_BACK, marker, a.failingPage, 1);
      Ours(r, thread, marker, a).Some? <==> exists c | c in seen :: IsRecognised(c, marker, a)
  {
    var seen := SeenMarked(thread, r.createdAt - LOOK_BACK, marker, a.failingPage, 1);
    forall c | c in seen
      ensures IsRecognised(c, marker, a) <==> IsOurNotice(c, a)
    {
      SeenIsMarked(thread, r.createdAt - LOOK_BACK, marker, a.failingPage, 1, c);
    }
  }

  predicate IsIdentified(a: Attempt) {
    a.identity.Some? && (a.identity.value.login != "" || a.identity.value.id.Some?)
  }

  /** Any other attempt is counted, whatever becomes of it. */
  lemma AttemptIsCounted(r: Record, thread: Thread, policy: Policy, marker: string, a: Attempt)
    requires policy.enabled && r.status != Notified && r.deliveryAttempts < policy.maxNotificationAttempts
    ensures
      var r' := Deliver(r, thread, policy, marker, a).record;
      && SameEpisode(r, r') && r'.deliveryAttempts == r.deliveryAttempts + 1 && r'.updatedAt == a.now
      && r'.target == (if a.target.Some? then a.target else r.target)
  {
  }

  /** Where it leaves the record: notified when it recognised the notice, or posted it where none was seen; else
    waiting, when its post was lost and attempts are left; else failed and closed. */
  function Outcome(r: Record, policy: Policy, a: Attempt, recognised: bool, seen: bool): Status {
    if a.target == None then NotificationFailed
    else if recognised || (!seen && IsIdentified(a) && a.post.Posted?) then Notified
    else if !seen && IsIdentified(a) && r.deliveryAttempts + 1 < policy.maxNotificationAttempts then PendingNotification
    else NotificationFailed
  }

  /** A notified record is open to replies exactly when the notice invites them, one that waits is left as it
    was, and a failed one is closed. Without a target, or after a lost post, the time of an earlier notice
    stays; a notice that is not recognised, or an unknown own account, takes it away. */
  lemma AttemptSettles(r: Record, thread: Thread, policy: Policy, marker: string, a: Attempt, recognised: bool)
    requires policy.enabled && r.status != Notified && r.deliveryAttempts < policy.maxNotificationAttempts
    requires
      var seen := SeenMarked(thread, r.createdAt - LOOK_BACK, marker, a.failingPage, 1);
      recognised <==> exists c | c in seen :: IsRecognised(c, marker, a)
    ensures
      var r' := Deliver(r, thread, policy, marker, a).record;
      var seen := SeenMarked(thread, r.createdAt - LOOK_BACK, marker, a.failingPage, 1) != [];
      var lost := !seen && IsIdentified(a) && a.post.LostPost?;
      && r'.status == Outcome(r, policy, a, recognised, seen)
      && (r'.status == NotificationFailed ==> IsFailedClosed(r'))
      && (r'.status == PendingNotification ==>
            (r'.remoteResumeEnabled, r'.replyCursor) == (r.remoteResumeEnabled, r.replyCursor))
      && (r'.status == Notified ==>
            && r'.remoteResumeEnabled == a.withInstructions
            && r'.replyCursor == (if a.withInstructions then NoCursor else Closed))
      && (r'.status != Notified ==>
            && r'.commentId == r.commentId
            && r'.lastNotifiedAt == if a.target == None || lost then r.lastNotifiedAt else None)
  {
    OursExactlyWhen(r, thread, marker, a);
    if Ours(r, thread, marker, a).Some? {
      OursIsRecognised(r, thread, marker, a);
    }
  }
}
