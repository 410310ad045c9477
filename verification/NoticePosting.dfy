/** The notices of one episode, posted by any number of attempts at the same time.

  An attempt copies the stored record, resolves a target and checks the thread there, posts, and saves
  the whole record from its copy. Anything can happen in between: other attempts (a worker that halts a
  run delivers while the service reconciles), other comments, a crash. A lost post can land before or
  after its attempt saves. */
module NoticePosting {
  import opened Wrappers
  import opened CommentThread
  import opened EscalationRecords
  import opened NoticeDelivery

  /** What an attempt decided at its check. */
  datatype Plan = Plan(a: Attempt, d: Delivery)

  /** An attempt under way: the record it read, its plan once it checked, and what it has done. */
  datatype Flight = Flight(seen: Record, plan: Option<Plan>, landed: bool, saved: bool) {
    /** Its check is behind it and its post is still to land. */
    predicate MayPost() {
      plan.Some? && plan.value.d.added.Some? && !landed
    }

    predicate MaySave() {
      plan.Some? && !saved && (plan.value.d.added.None? || landed || plan.value.a.post.LostPost?)
    }
  }

  /** `landed` lists the targets of the notices that landed. */
  datatype World = World(record: Record, threads: map<Target, Thread>, flights: seq<Flight>, landed: seq<Target>)

  datatype Event =
    | Begin
    | Check(flight: nat, a: Attempt)
    | Land(flight: nat)
    | Save(flight: nat)
    | End(flight: nat)
    | Others(target: Target, comments: Thread)

  function ThreadAt(threads: map<Target, Thread>, target: Option<Target>): Thread {
    if target.Some? && target.value in threads then threads[target.value] else []
  }

  function Append(threads: map<Target, Thread>, target: Target, comments: Thread): map<Target, Thread> {
    threads[target := ThreadAt(threads, Some(target)) + comments]
  }

  function PlanFor(w: World, policy: Policy, marker: string, seen: Record, a: Attempt): Plan {
    Plan(a, Deliver(seen, ThreadAt(w.threads, a.target), policy, marker, a))
  }

  /** A delivery that decided nothing leaves the store alone; any other writes its whole copy. */
  function Saved(stored: Record, f: Flight): Record
    requires f.plan.Some?
  {
    if f.plan.value.d.record == f.seen then stored else f.plan.value.d.record
  }

  function LandOne(w: World, i: nat): World
    requires i < |w.flights| && w.flights[i].MayPost() && w.flights[i].plan.value.a.target.Some?
  {
    var plan := w.flights[i].plan.value;
    var target := plan.a.target.value;
    World(w.record, Append(w.threads, target, [plan.d.added.value]), w.flights[i := w.flights[i].(landed := true)],
          w.landed + [target])
  }

  function Happens(w: World, policy: Policy, marker: string, e: Event): World {
    match e
    case Begin => w.(flights := w.flights + [Flight(w.record, None, false, false)])
    case Check(i, a) =>
      if i < |w.flights| && w.flights[i].plan.None?
      then w.(flights := w.flights[i := w.flights[i].(plan := Some(PlanFor(w, policy, marker, w.flights[i].seen, a)))])
      else w
    case Land(i) =>
      if i < |w.flights| && w.flights[i].MayPost() && w.flights[i].plan.value.a.target.Some? then LandOne(w, i) else w
    case Save(i) =>
      if i < |w.flights| && w.flights[i].MaySave()
      then w.(record := Saved(w.record, w.flights[i]), flights := w.flights[i := w.flights[i].(saved := true)])
      else w
    case End(i) => if i < |w.flights| then w.(flights := w.flights[..i] + w.flights[i + 1..]) else w
    case Others(target, comments) => w.(threads := Append(w.threads, target, comments))
  }

  function Run(w: World, policy: Policy, marker: string, es: seq<Event>): World
    decreases |es|
  {
    if es == [] then w else Run(Happens(w, policy, marker, es[0]), policy, marker, es[1..])
  }

  /** A new episode: nothing is under way and nothing was posted. */
  predicate IsNew(w: World) {
    w.flights == [] && w.landed == [] && !w.record.status.Notified?
  }

  /** The listing that a check of `a` reads, for an episode created at `created`. */
  function ListingFor(w: World, created: int, a: Attempt): seq<Comment> {
    CreatedSince(ThreadAt(w.threads, a.target), created - LOOK_BACK)
  }

  /** The notice carries the marker, and GitHub's clock is at most two minutes behind. */
  predicate IsMarked(marker: string, created: int, a: Attempt) {
    HoldsMarker(a.body, marker) && a.post.created >= created - LOOK_BACK
  }

  // ----- What a save writes

  /** A save writes the whole copy that its attempt decided on, and nothing when it left its record alone; one
    that names the comment it posts is saved only once that has landed. */
  lemma SaveWritesThePlan(w: World, policy: Policy, marker: string, i: nat)
    requires i < |w.flights| && Happens(w, policy, marker, Save(i)) != w
    ensures
      var f := w.flights[i];
      && f.plan.Some? && !f.saved
      && (f.plan.value.d.added.Some? && f.plan.value.a.post.Posted? ==> f.landed)
      && Happens(w, policy, marker, Save(i)).record
           == if f.plan.value.d.record == f.seen then w.record else f.plan.value.d.record
  {
  }

  // ----- One check, exactly

  /** A check leads to a post exactly when its attempt is due by the copy it holds, the post lands, and
    the part of the listing that it reads holds no marker. Attempts under way do not count: what has
    not landed cannot be seen. */
  lemma CheckPostsExactlyWhen(w: World, policy: Policy, marker: string, i: nat, a: Attempt)
    requires i < |w.flights| && w.flights[i].plan.None? && !w.flights[i].landed
    ensures
      var seen := w.flights[i].seen;
      Happens(w, policy, marker, Check(i, a)).flights[i].MayPost() <==>
        && IsDue(seen, policy, a) && Lands(a)
        && !HasMarkerIn(ListingFor(w, seen.createdAt, a), 0, Checked(a.failingPage), marker)
  {
    var seen := w.flights[i].seen;
    assert Happens(w, policy, marker, Check(i, a)).flights[i].plan == Some(PlanFor(w, policy, marker, seen, a));
    PlanPostsExactlyWhen(w, policy, marker, seen, a);
  }

  lemma PlanPostsExactlyWhen(w: World, policy: Policy, marker: string, seen: Record, a: Attempt)
    ensures
      PlanFor(w, policy, marker, seen, a).d.added.Some? <==>
        && IsDue(seen, policy, a) && Lands(a)
        && !HasMarkerIn(ListingFor(w, seen.createdAt, a), 0, Checked(a.failingPage), marker)
  {
    PostsUnlessMarkerRead(seen, ThreadAt(w.threads, a.target), policy, marker, a);
  }

  /** The notice is comment `k` of the listing at `target`, and no other comment has the marker. */
  ghost predicate OnlyNoticeIs(w: World, created: int, marker: string, target: Target, k: nat) {
    && (forall t, c | t in w.threads && c in w.threads[t] && HoldsMarker(c.body, marker) :: t == target)
    && var listed := CreatedSince(ThreadAt(w.threads, Some(target)), created - LOOK_BACK);
    && k < |listed| && HoldsMarker(listed[k].body, marker)
    && forall j | 0 <= j < |listed| && j != k :: !HoldsMarker(listed[j].body, marker)
  }

  /** Given the one notice that landed, a due attempt posts it again exactly when it resolved another
    target, or its check did not read as far as the notice. */
  lemma SecondNoticeExactlyWhen(w: World, policy: Policy, marker: string, i: nat, a: Attempt, target: Target, k: nat)
    requires i < |w.flights| && w.flights[i].plan.None? && !w.flights[i].landed
    requires OnlyNoticeIs(w, w.flights[i].seen.createdAt, marker, target, k)
    requires IsDue(w.flights[i].seen, policy, a) && Lands(a)
    ensures
      Happens(w, policy, marker, Check(i, a)).flights[i].MayPost() <==>
        a.target != Some(target) || k >= Checked(a.failingPage)
  {
    CheckPostsExactlyWhen(w, policy, marker, i, a);
    MarkerReadExactlyWhen(w, w.flights[i].seen.createdAt, marker, target, k, a, Checked(a.failingPage));
  }

  lemma MarkerReadExactlyWhen(w: World, created: int, marker: string, target: Target, k: nat, a: Attempt, to: nat)
    requires OnlyNoticeIs(w, created, marker, target, k)
    ensures HasMarkerIn(ListingFor(w, created, a), 0, to, marker) <==> a.target == Some(target) && k < to
  {
    var listed := ListingFor(w, created, a);
    if a.target != Some(target) {
      forall j | 0 <= j < |listed|
        ensures !HoldsMarker(listed[j].body, marker)
      {
        assert listed[j] in listed;
        Listed(ThreadAt(w.threads, a.target), created - LOOK_BACK, listed[j]);
      }
    }
  }

  // ----- At most one notice

  /** No attempt is between its check and its post, and once a notice landed, the target is the one it
    went to and the check reads its whole listing. */
  predicate ChecksSafely(w: World, created: int, a: Attempt) {
    && (forall f | f in w.flights :: !f.MayPost())
    && (w.landed != [] ==>
          && a.target == Some(w.landed[0])
          && |ListingFor(w, created, a)| <= Checked(a.failingPage))
  }

  predicate AllSafe(w: World, policy: Policy, marker: string, created: int, es: seq<Event>)
    decreases |es|
  {
    es == [] ||
    (&& (es[0].Check? ==> IsMarked(marker, created, es[0].a) && ChecksSafely(w, created, es[0].a))
     && AllSafe(Happens(w, policy, marker, es[0]), policy, marker, created, es[1..]))
  }

  ghost predicate FlightIsMarked(f: Flight, created: int, marker: string) {
    && f.seen.createdAt == created
    && (f.plan.Some? ==>
          && IsMarked(marker, created, f.plan.value.a)
          && f.plan.value.d.record.createdAt == created
          && (f.plan.value.d.added.Some? ==>
                && f.plan.value.a.target.Some? && f.plan.value.a.identity.Some?
                && f.plan.value.d.added.value == NoticeComment(f.plan.value.a)))
  }

  /** A comment with the marker stands where the notice landed. */
  ghost predicate Stands(w: World, created: int, marker: string) {
    w.landed != [] && exists c | c in ThreadAt(w.threads, Some(w.landed[0])) ::
      c.created >= created - LOOK_BACK && HoldsMarker(c.body, marker)
  }

  ghost predicate OnePending(flights: seq<Flight>) {
    forall i, j | 0 <= i < j < |flights| :: !(flights[i].MayPost() && flights[j].MayPost())
  }

  ghost predicate NonePending(flights: seq<Flight>) {
    forall i | 0 <= i < |flights| :: !flights[i].MayPost()
  }

  ghost predicate AllMarked(w: World, created: int, marker: string) {
    && w.record.createdAt == created
    && forall i | 0 <= i < |w.flights| :: FlightIsMarked(w.flights[i], created, marker)
  }

  ghost predicate OneAtMost(w: World, created: int, marker: string) {
    || (w.landed == [] && OnePending(w.flights))
    || (|w.landed| == 1 && NonePending(w.flights) && Stands(w, created, marker))
  }

  lemma PlanIsMarked(w: World, policy: Policy, marker: string, created: int, i: nat, a: Attempt)
    requires i < |w.flights| && w.flights[i].seen.createdAt == created && IsMarked(marker, created, a)
    ensures
      var plan := PlanFor(w, policy, marker, w.flights[i].seen, a);
      && plan.d.record.createdAt == created
      && (plan.d.added.Some? ==>
            a.target.Some? && a.identity.Some? && plan.d.added.value == NoticeComment(a))
  {
    PostsExactlyWhen(w.flights[i].seen, ThreadAt(w.threads, a.target), policy, marker, a);
  }

  lemma EventKeepsMarked(w: World, policy: Policy, marker: string, created: int, e: Event)
    requires AllMarked(w, created, marker)
    requires e.Check? ==> IsMarked(marker, created, e.a)
    ensures AllMarked(Happens(w, policy, marker, e), created, marker)
  {
    if e.Check? && e.flight < |w.flights| {
      PlanIsMarked(w, policy, marker, created, e.flight, e.a);
    }
  }

  /** Threads only grow, so what stands keeps standing. */
  lemma StaysStanding(w: World, target: Target, comments: Thread, created: int, marker: string)
    requires Stands(w, created, marker)
    ensures Stands(w.(threads := Append(w.threads, target, comments)), created, marker)
  {
    var at := Some(w.landed[0]);
    var c :| c in ThreadAt(w.threads, at) && c.created >= created - LOOK_BACK && HoldsMarker(c.body, marker);
    assert c in ThreadAt(Append(w.threads, target, comments), at);
  }

  /** A safe check reads the notice that landed. */
  lemma SafeCheckReadsNotice(w: World, marker: string, created: int, a: Attempt)
    requires Stands(w, created, marker) && ChecksSafely(w, created, a)
    ensures HasMarkerIn(ListingFor(w, created, a), 0, Checked(a.failingPage), marker)
  {
    var at := ThreadAt(w.threads, a.target);
    var c :| c in at && c.created >= created - LOOK_BACK && HoldsMarker(c.body, marker);
    Listed(at, created - LOOK_BACK, c);
  }

  lemma OneChangeKeepsOne(w: World, created: int, marker: string, i: nat, f: Flight)
    requires OneAtMost(w, created, marker) && i < |w.flights| && NonePending(w.flights)
    requires w.landed != [] ==> !f.MayPost()
    ensures OneAtMost(w.(flights := w.flights[i := f]), created, marker)
  {
  }

  lemma SafeCheckPostsNothing(w: World, policy: Policy, marker: string, created: int, seen: Record, a: Attempt)
    requires w.landed != [] && Stands(w, created, marker) && ChecksSafely(w, created, a) && seen.createdAt == created
    ensures PlanFor(w, policy, marker, seen, a).d.added.None?
  {
    SafeCheckReadsNotice(w, marker, created, a);
    PlanPostsExactlyWhen(w, policy, marker, seen, a);
  }

  lemma SafeCheckKeepsOne(w: World, policy: Policy, marker: string, created: int, i: nat, a: Attempt)
    requires OneAtMost(w, created, marker) && i < |w.flights| && w.flights[i].seen.createdAt == created
    requires ChecksSafely(w, created, a)
    ensures
      var f := w.flights[i].(plan := Some(PlanFor(w, policy, marker, w.flights[i].seen, a)));
      OneAtMost(w.(flights := w.flights[i := f]), created, marker)
  {
    var plan := PlanFor(w, policy, marker, w.flights[i].seen, a);
    assert forall j | 0 <= j < |w.flights| :: w.flights[j] in w.flights;
    if w.landed != [] {
      SafeCheckPostsNothing(w, policy, marker, created, w.flights[i].seen, a);
    }
    OneChangeKeepsOne(w, created, marker, i, w.flights[i].(plan := Some(plan)));
  }

  lemma LandKeepsOne(w: World, created: int, marker: string, i: nat)
    requires AllMarked(w, created, marker) && OneAtMost(w, created, marker)
    requires i < |w.flights| && w.flights[i].MayPost() && w.flights[i].plan.value.a.target.Some?
    ensures OneAtMost(LandOne(w, i), created, marker)
  {
    var w', plan := LandOne(w, i), w.flights[i].plan.value;
    assert FlightIsMarked(w.flights[i], created, marker);
    var thread := ThreadAt(w'.threads, plan.a.target);
    assert thread[|thread| - 1] == NoticeComment(plan.a);
    assert NoticeComment(plan.a) in thread;
    assert forall j | 0 <= j < |w.flights| && j != i :: !w.flights[j].MayPost();
  }

  lemma EventKeepsOne(w: World, policy: Policy, marker: string, created: int, e: Event)
    requires AllMarked(w, created, marker) && OneAtMost(w, created, marker)
    requires e.Check? ==> ChecksSafely(w, created, e.a)
    ensures OneAtMost(Happens(w, policy, marker, e), created, marker)
  {
    match e
    case Check(i, a) =>
      if i < |w.flights| && w.flights[i].plan.None? {
        assert FlightIsMarked(w.flights[i], created, marker);
        SafeCheckKeepsOne(w, policy, marker, created, i, a);
      }
    case Land(i) =>
      if i < |w.flights| && w.flights[i].MayPost() && w.flights[i].plan.value.a.target.Some? {
        LandKeepsOne(w, created, marker, i);
      }
    case Others(target, comments) =>
      if w.landed != [] {
        StaysStanding(w, target, comments, created, marker);
      }
    case _ =>
  }

  /** If every check is safe, at most one notice of the episode lands, whatever other comments there
    are, however many attempts are under way, and however posts are lost. */
  lemma AtMostOneNotice(w: World, policy: Policy, marker: string, es: seq<Event>)
    requires IsNew(w) && AllSafe(w, policy, marker, w.record.createdAt, es)
    ensures |Run(w, policy, marker, es).landed| <= 1
  {
    RunKeepsOne(w, policy, marker, w.record.createdAt, es);
  }

  lemma {:induction false} RunKeepsOne(w: World, policy: Policy, marker: string, created: int, es: seq<Event>)
    requires AllMarked(w, created, marker) && OneAtMost(w, created, marker)
    requires AllSafe(w, policy, marker, created, es)
    ensures OneAtMost(Run(w, policy, marker, es), created, marker)
    decreases |es|
  {
    if es != [] {
      EventKeepsMarked(w, policy, marker, created, es[0]);
      EventKeepsOne(w, policy, marker, created, es[0]);
      RunKeepsOne(Happens(w, policy, marker, es[0]), policy, marker, created, es[1..]);
    }
  }

  // ----- What a notified record names

  /** The record names a comment with the marker in the thread of its own target. */
  ghost predicate NamesNotice(threads: map<Target, Thread>, r: Record, marker: string) {
    && r.target.Some? && r.commentId.Some?
    && exists c | c in ThreadAt(threads, r.target) :: c.id == r.commentId.value && HoldsMarker(c.body, marker)
  }

  ghost predicate IsBacked(threads: map<Target, Thread>, r: Record, marker: string) {
    r.status.Notified? ==> NamesNotice(threads, r, marker)
  }

  /** The comment that makes the planned record true is still to be posted. */
  ghost predicate AwaitsOwnPost(f: Flight, marker: string) {
    && f.plan.Some? && !f.landed
    && var Plan(a, d) := f.plan.value;
    && a.post.Posted? && d.added.Some? && d.record.target == a.target && a.target.Some?
    && d.record.commentId == Some(d.added.value.id) && HoldsMarker(d.added.value.body, marker)
  }

  ghost predicate FlightIsBacked(threads: map<Target, Thread>, f: Flight, marker: string) {
    && IsBacked(threads, f.seen, marker)
    && (f.plan.Some? ==> IsBacked(threads, f.plan.value.d.record, marker) || AwaitsOwnPost(f, marker))
  }

  ghost predicate AllBacked(w: World, marker: string) {
    && IsBacked(w.threads, w.record, marker)
    && forall i | 0 <= i < |w.flights| :: FlightIsBacked(w.threads, w.flights[i], marker)
  }

  lemma PlanIsBacked(w: World, policy: Policy, marker: string, f: Flight, a: Attempt)
    requires FlightIsBacked(w.threads, f, marker) && f.plan.None? && !f.landed && HoldsMarker(a.body, marker)
    ensures FlightIsBacked(w.threads, f.(plan := Some(PlanFor(w, policy, marker, f.seen, a))), marker)
  {
    var thread := ThreadAt(w.threads, a.target);
    var d := Deliver(f.seen, thread, policy, marker, a);
    if !f.seen.status.Notified? && d.record.status.Notified? {
      NotifiedNamesANotice(f.seen, thread, policy, marker, a);
      NotifiedAtTarget(f.seen, thread, policy, marker, a);
    } else if f.seen.status.Notified? {
      assert d.record == f.seen;
    }
  }

  lemma StaysNamed(threads: map<Target, Thread>, target: Target, comments: Thread, r: Record, marker: string)
    requires NamesNotice(threads, r, marker)
    ensures NamesNotice(Append(threads, target, comments), r, marker)
  {
    var c :| c in ThreadAt(threads, r.target) && c.id == r.commentId.value && HoldsMarker(c.body, marker);
    assert c in ThreadAt(Append(threads, target, comments), r.target);
  }

  lemma StaysBacked(w: World, target: Target, comments: Thread, marker: string)
    requires AllBacked(w, marker)
    ensures AllBacked(w.(threads := Append(w.threads, target, comments)), marker)
  {
    forall r | IsBacked(w.threads, r, marker)
      ensures IsBacked(Append(w.threads, target, comments), r, marker)
    {
      if r.status.Notified? {
        StaysNamed(w.threads, target, comments, r, marker);
      }
    }
  }

  /** The post that a flight waited for stands in the thread once it landed. */
  lemma LandedIsBacked(w: World, marker: string, i: nat)
    requires AllBacked(w, marker)
    requires i < |w.flights| && w.flights[i].MayPost() && w.flights[i].plan.value.a.target.Some?
    ensures AllBacked(LandOne(w, i), marker)
  {
    var Plan(a, d) := w.flights[i].plan.value;
    var grown := w.(threads := Append(w.threads, a.target.value, [d.added.value]));
    StaysBacked(w, a.target.value, [d.added.value], marker);
    assert FlightIsBacked(w.threads, w.flights[i], marker) && FlightIsBacked(grown.threads, grown.flights[i], marker);
    if AwaitsOwnPost(w.flights[i], marker) {
      var thread := ThreadAt(grown.threads, a.target);
      assert thread[|thread| - 1] == d.added.value;
      assert NamesNotice(grown.threads, d.record, marker);
    }
  }

  lemma EventKeepsBacked(w: World, policy: Policy, marker: string, e: Event)
    requires AllBacked(w, marker) && (e.Check? ==> HoldsMarker(e.a.body, marker))
    requires forall i | 0 <= i < |w.flights| :: w.flights[i].landed ==> w.flights[i].plan.Some?
    ensures AllBacked(Happens(w, policy, marker, e), marker)
    ensures
      var w' := Happens(w, policy, marker, e);
      forall i | 0 <= i < |w'.flights| :: w'.flights[i].landed ==> w'.flights[i].plan.Some?
  {
    match e
    case Check(i, a) =>
      if i < |w.flights| && w.flights[i].plan.None? {
        assert FlightIsBacked(w.threads, w.flights[i], marker);
        PlanIsBacked(w, policy, marker, w.flights[i], a);
      }
    case Land(i) =>
      if i < |w.flights| && w.flights[i].MayPost() && w.flights[i].plan.value.a.target.Some? {
        LandedIsBacked(w, marker, i);
      }
    case Save(i) =>
      if i < |w.flights| && w.flights[i].MaySave() {
        assert FlightIsBacked(w.threads, w.flights[i], marker);
      }
    case Others(target, comments) => StaysBacked(w, target, comments, marker);
    case _ =>
  }

  /** Over any run, safe or not, a stored record that is notified names a comment with the marker in
    the thread of its target. */
  lemma NotifiedNamesAStandingNotice(w: World, policy: Policy, marker: string, es: seq<Event>)
    requires IsNew(w)
    requires forall e | e in es && e.Check? :: HoldsMarker(e.a.body, marker)
    ensures
      var w' := Run(w, policy, marker, es);
      w'.record.status.Notified? ==> NamesNotice(w'.threads, w'.record, marker)
  {
    RunKeepsBacked(w, policy, marker, es);
  }

  lemma {:induction false} RunKeepsBacked(w: World, policy: Policy, marker: string, es: seq<Event>)
    requires AllBacked(w, marker)
    requires forall i | 0 <= i < |w.flights| :: w.flights[i].landed ==> w.flights[i].plan.Some?
    requires forall e | e in es && e.Check? :: HoldsMarker(e.a.body, marker)
    ensures AllBacked(Run(w, policy, marker, es), marker)
    decreases |es|
  {
    if es != [] {
      assert es[0] in es;
      EventKeepsBacked(w, policy, marker, es[0]);
      RunKeepsBacked(Happens(w, policy, marker, es[0]), policy, marker, es[1..]);
    }
  }

  // ----- Bounded attempts

  ghost predicate AllOk(w: World, policy: Policy) {
    && DeliveryOk(w.record, policy)
    && forall i | 0 <= i < |w.flights| ::
      DeliveryOk(w.flights[i].seen, policy)
      && (w.flights[i].plan.Some? ==> DeliveryOk(w.flights[i].plan.value.d.record, policy))
  }

  /** Over any events, safe or not: the attempt bound and the closed gate of a failed notice, in the
    store and in every copy. */
  lemma {:induction false} DeliveriesStayOk(w: World, policy: Policy, marker: string, es: seq<Event>)
    requires AllOk(w, policy)
    ensures AllOk(Run(w, policy, marker, es), policy)
    decreases |es|
  {
    if es != [] {
      if es[0].Check? && es[0].flight < |w.flights| {
        var a := es[0].a;
        DeliverIsOk(w.flights[es[0].flight].seen, ThreadAt(w.threads, a.target), policy, marker, a);
      }
      DeliveriesStayOk(Happens(w, policy, marker, es[0]), policy, marker, es[1..]);
    }
  }

  // ----- Where it fails

  const WAITING: Record :=
    Record("e", PendingNotification, None, None, 0, None, NoCursor, [], 0, true, 0, 0)

  const POLICY: Policy := Policy(3, 3600, true, ["github.com"], 3)

  const PULL: Target := Target("github.com", "o/r", 1)

  const ISSUE: Target := Target("github.com", "o/r", 2)

  function AttemptAt(target: Target, failingPage: Option<nat>, post: Post): Attempt {
    Attempt(0, Some(target), "m", true, Some(Identity("bot", Some(7))), failingPage, post)
  }

  /** A run is its worlds one after the other. */
  lemma {:induction false} RunUnfolds(w: World, policy: Policy, marker: string, es: seq<Event>, ws: seq<World>)
    requires |es| == |ws| > 0
    requires ws[0] == Happens(w, policy, marker, es[0])
    requires forall i | 0 < i < |es| :: ws[i] == Happens(ws[i - 1], policy, marker, es[i])
    ensures Run(w, policy, marker, es) == ws[|ws| - 1]
    decreases |es|
  {
    if |es| > 1 {
      RunUnfolds(ws[0], policy, marker, es[1..], ws[1..]);
    } else {
      assert Run(ws[0], policy, marker, es[1..]) == ws[0];
    }
  }

  /** The listing that the check of `a` in `w` reads is complete. */
  predicate ReadsAll(w: World, a: Attempt) {
    |ListingFor(w, 0, a)| <= Checked(a.failingPage)
  }

  function Alone(a: Attempt): seq<Event> {
    [Begin, Check(0, a), Land(0), Save(0), End(0)]
  }

  /** An attempt that posts and that nothing disturbs is one `Deliver`. */
  lemma AttemptAlone(w: World, policy: Policy, marker: string, a: Attempt)
    requires w.flights == [] && a.target.Some?
    requires Deliver(w.record, ThreadAt(w.threads, a.target), policy, marker, a).added.Some?
    ensures
      var d, w' := Deliver(w.record, ThreadAt(w.threads, a.target), policy, marker, a),
                   Run(w, policy, marker, Alone(a));
      && w'.record == d.record
      && w'.threads == Append(w.threads, a.target.value, [d.added.value])
      && w'.flights == [] && w'.landed == w.landed + [a.target.value]
  {
    var d := Deliver(w.record, ThreadAt(w.threads, a.target), policy, marker, a);
    assert d.record != w.record;
    var f := Flight(w.record, None, false, false);
    var planned := f.(plan := Some(Plan(a, d)));
    var w1 := w.(flights := [f]);
    var w2 := w.(flights := [planned]);
    var w3 := World(w.record, Append(w.threads, a.target.value, [d.added.value]), [planned.(landed := true)],
                    w.landed + [a.target.value]);
    var w4 := w3.(record := d.record, flights := [planned.(landed := true, saved := true)]);
    var w5 := w4.(flights := []);
    assert w1 == Happens(w, policy, marker, Begin);
    assert w2 == Happens(w1, policy, marker, Check(0, a));
    assert w3 == Happens(w2, policy, marker, Land(0));
    assert w4 == Happens(w3, policy, marker, Save(0));
    assert w5 == Happens(w4, policy, marker, End(0));
    RunUnfolds(w, policy, marker, Alone(a), [w1, w2, w3, w4, w5]);
  }

  /** The record after a post that landed but was reported lost. */
  lemma AfterLostPost(w: World, w1: World)
    requires w == World(WAITING, map[], [], [])
    requires w1 == Run(w, POLICY, "m", Alone(AttemptAt(PULL, None, LostPost(true, 1, 0))))
    ensures w1.landed == [PULL] && w1.flights == []
    ensures w1.record == WAITING.(deliveryAttempts := 1, target := Some(PULL))
    ensures ThreadAt(w1.threads, Some(PULL)) == [Comment(1, 0, "m", "bot", Some(7))]
    ensures ThreadAt(w1.threads, Some(ISSUE)) == []
  {
    var a := AttemptAt(PULL, None, LostPost(true, 1, 0));
    PostsUnlessMarkerRead(WAITING, [], POLICY, "m", a);
    AttemptAlone(w, POLICY, "m", a);
  }

  /** Two attempts, one after the other, both checks complete: the first posts on the open pull request
    and is reported lost; at the second the target is the issue, where no notice stands. */
  lemma TargetSwitchPostsTwice(w: World, w1: World, b: Attempt)
    requires w == World(WAITING, map[], [], [])
    requires w1 == Run(w, POLICY, "m", Alone(AttemptAt(PULL, None, LostPost(true, 1, 0))))
    requires b == AttemptAt(ISSUE, None, Posted(2, 1))
    ensures IsNew(w) && ReadsAll(w1, b)
    ensures Run(w1, POLICY, "m", Alone(b)).landed == [PULL, ISSUE]
  {
    AfterLostPost(w, w1);
    PostsUnlessMarkerRead(w1.record, [], POLICY, "m", b);
    AttemptAlone(w1, POLICY, "m", b);
  }

  /** The same target, but the second listing fails, which the code swallows. */
  lemma LostPostAndListingErrorPostTwice(w: World, w1: World, b: Attempt)
    requires w == World(WAITING, map[], [], [])
    requires w1 == Run(w, POLICY, "m", Alone(AttemptAt(PULL, None, LostPost(true, 1, 0))))
    requires b == AttemptAt(PULL, Some(1), Posted(2, 1))
    ensures IsNew(w) && Run(w1, POLICY, "m", Alone(b)).landed == [PULL, PULL]
  {
    AfterLostPost(w, w1);
    PostsUnlessMarkerRead(w1.record, ThreadAt(w1.threads, b.target), POLICY, "m", b);
    AttemptAlone(w1, POLICY, "m", b);
  }

  const OVERLAP: seq<Event> := [Begin, Begin, Check(0, AttemptAt(PULL, None, Posted(1, 0))),
                                Check(1, AttemptAt(PULL, None, Posted(2, 0))), Land(0), Land(1)]

  /** The same target, both checks complete, but the second check runs before the first post lands. */
  lemma OverlapPostsTwice(w: World)
    requires w == World(WAITING, map[], [], [])
    ensures IsNew(w) && Run(w, POLICY, "m", OVERLAP).landed == [PULL, PULL]
    ensures ReadsAll(w, AttemptAt(PULL, None, Posted(1, 0)))
  {
    var a, b := AttemptAt(PULL, None, Posted(1, 0)), AttemptAt(PULL, None, Posted(2, 0));
    PostsUnlessMarkerRead(WAITING, [], POLICY, "m", a);
    PostsUnlessMarkerRead(WAITING, [], POLICY, "m", b);
    var f := Flight(WAITING, None, false, false);
    var fa := f.(plan := Some(Plan(a, Deliver(WAITING, [], POLICY, "m", a))));
    var fb := f.(plan := Some(Plan(b, Deliver(WAITING, [], POLICY, "m", b))));
    var w1 := w.(flights := [f]);
    var w2 := w.(flights := [f, f]);
    var w3 := w.(flights := [fa, f]);
    var w4 := w.(flights := [fa, fb]);
    var w5, w6 := Happens(w4, POLICY, "m", Land(0)), Happens(Happens(w4, POLICY, "m", Land(0)), POLICY, "m", Land(1));
    assert w1 == Happens(w, POLICY, "m", Begin);
    assert w2 == Happens(w1, POLICY, "m", Begin);
    assert w3 == Happens(w2, POLICY, "m", Check(0, a));
    assert w4 == Happens(w3, POLICY, "m", Check(1, b));
    RunUnfolds(w, POLICY, "m", OVERLAP, [w1, w2, w3, w4, w5, w6]);
  }
}
