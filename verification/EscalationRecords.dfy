/** The escalation record, the reply policy and the one reply gate. Times are whole seconds. */
module EscalationRecords {
  import opened Wrappers

  datatype Status = PendingNotification | Notified | NotificationFailed | Reopened | Resumed | Expired

  datatype ReplyCursor = NoCursor | At(position: string) | Closed

  /** Where a notice goes: an issue or pull request of a repository on a host. */
  datatype Target = Target(host: string, repository: string, number: nat)

  datatype Record = Record(
    episodeId: string,
    status: Status,
    target: Option<Target>,
    commentId: Option<int>,
    deliveryAttempts: nat,
    lastNotifiedAt: Option<int>,
    replyCursor: ReplyCursor,
    acceptedReplies: seq<int>,
    reopenCount: nat,
    remoteResumeEnabled: bool,
    createdAt: int,
    updatedAt: int)
  {
    function AdvancedCursor(position: string, now: int): Record {
      this.(replyCursor := At(position), updatedAt := now)
    }

    function ClosedToReplies(now: int): Record {
      this.(remoteResumeEnabled := false, replyCursor := Closed, updatedAt := now)
    }

    function ExpiredAt(now: int): Record {
      ClosedToReplies(now).(status := Expired)
    }

    function ReopenedBy(receipt: int, now: int): Record {
      this.(acceptedReplies := acceptedReplies + [receipt], reopenCount := reopenCount + 1,
            status := Reopened, replyCursor := Closed, updatedAt := now)
    }
  }

  /** Case folding of host names and logins, which are ASCII. */
  function CaseFold(s: string): string {
    seq(|s|, i requires 0 <= i < |s| => if 'A' <= s[i] <= 'Z' then s[i] + ('a' - 'A') else s[i])
  }

  datatype Policy = Policy(maxReopens: nat, replyWindow: nat, enabled: bool, allowedHosts: seq<string>,
                           maxNotificationAttempts: nat)
  {
    predicate WindowPassed(record: Record, now: int) {
      now > record.createdAt + replyWindow
    }

    predicate ReopensLeft(record: Record) {
      record.reopenCount < maxReopens
    }

    function NoticeHost(record: Record): string {
      if record.target.Some? && record.target.value.host != "" then record.target.value.host
      else if allowedHosts != [] then allowedHosts[0]
      else "github.com"
    }

    predicate AllowsHost(host: string) {
      exists i | 0 <= i < |allowedHosts| :: CaseFold(allowedHosts[i]) == CaseFold(host)
    }
  }

  datatype Cause =
    | EscalationOff | NotSentYet | NotSent | NoInstructions | CursorClosed | WindowExpired
    | ReopenLimit | HostNotAllowed | AlreadyResumed

  function StatusCause(status: Status): Cause
    requires !status.Notified?
  {
    match status
    case PendingNotification => NotSentYet
    case NotificationFailed => NotSent
    case Expired => WindowExpired
    case Reopened => AlreadyResumed
    case Resumed => AlreadyResumed
  }

  /** Why a reply is not read at `now`, or None when it is. */
  function ReplyClosedCause(record: Record, policy: Policy, now: int): Option<Cause> {
    if !policy.enabled then Some(EscalationOff)
    else if !record.status.Notified? then Some(StatusCause(record.status))
    else if !record.remoteResumeEnabled then Some(NoInstructions)
    else if record.replyCursor.Closed? then Some(CursorClosed)
    else if policy.WindowPassed(record, now) then Some(WindowExpired)
    else if !policy.ReopensLeft(record) then Some(ReopenLimit)
    else if !policy.AllowsHost(policy.NoticeHost(record)) then Some(HostNotAllowed)
    else None
  }

  /** The host whose replies are read is allowed: the notice's own host, or, when none is stored, the first
    allowed one, or github.com when there is no list. */
  predicate ReadsAllowedHost(record: Record, policy: Policy) {
    var stored := if record.target.Some? then record.target.value.host else "";
    var host :=
      if stored != "" then stored else if policy.allowedHosts != [] then policy.allowedHosts[0] else "github.com";
    exists allowed | allowed in policy.allowedHosts :: CaseFold(allowed) == CaseFold(host)
  }

  /** The gate is open exactly when all its conditions hold, the last moment of the window included. */
  lemma GateIsOpenExactlyWhen(record: Record, policy: Policy, now: int)
    ensures
      ReplyClosedCause(record, policy, now).None? <==>
        && policy.enabled && record.status == Notified && record.remoteResumeEnabled
        && record.replyCursor != Closed && now <= record.createdAt + policy.replyWindow
        && record.reopenCount < policy.maxReopens && ReadsAllowedHost(record, policy)
  {
    var host := policy.NoticeHost(record);
    if allowed :| allowed in policy.allowedHosts && CaseFold(allowed) == CaseFold(host) {
      assert policy.AllowsHost(host);
    }
  }

  /** The cause is that of the first condition that fails. */
  lemma FirstFailureIsTheCause(record: Record, policy: Policy, now: int)
    requires policy.enabled
    ensures
      var cause := ReplyClosedCause(record, policy, now);
      && (record.status == PendingNotification ==> cause == Some(NotSentYet))
      && (record.status == NotificationFailed ==> cause == Some(NotSent))
      && (record.status == Expired ==> cause == Some(WindowExpired))
      && (record.status in {Reopened, Resumed} ==> cause == Some(AlreadyResumed))
      && (record.status == Notified ==>
            && (cause == Some(NoInstructions) <==> !record.remoteResumeEnabled)
            && (cause == Some(CursorClosed) <==> record.remoteResumeEnabled && record.replyCursor == Closed)
            && (cause == Some(WindowExpired) <==>
                  && record.remoteResumeEnabled && record.replyCursor != Closed
                  && now > record.createdAt + policy.replyWindow)
            && (cause == Some(ReopenLimit) <==>
                  && record.remoteResumeEnabled && record.replyCursor != Closed
                  && now <= record.createdAt + policy.replyWindow && record.reopenCount >= policy.maxReopens)
            && cause !in {Some(EscalationOff), Some(NotSentYet), Some(NotSent), Some(AlreadyResumed)})
  {
  }

  /** What a poll saves: a closed gate can close or expire the record, an open one moves the cursor. */
  datatype Change = Close | Expire | Advance(position: string)

  function Changed(record: Record, change: Change, now: int): Record {
    match change
    case Close => record.ClosedToReplies(now)
    case Expire => record.ExpiredAt(now)
    case Advance(position) => record.AdvancedCursor(position, now)
  }

  function GateTransition(cause: Option<Cause>, contextIsValid: bool): Option<Change> {
    if cause in {Some(NoInstructions), Some(ReopenLimit)} then Some(Close)
    else if !contextIsValid && cause in {None, Some(WindowExpired), Some(HostNotAllowed)} then Some(Close)
    else if cause == Some(WindowExpired) then Some(Expire)
    else None
  }

  /** `_save_poll_update_if_unchanged`: the change is made to the stored record, and only when its
    status, episode and cursor are still the ones the poll read. */
  function SavedIfUnchanged(stored: Record, seen: Record, change: Change, now: int): Record {
    if (stored.status, stored.episodeId, stored.replyCursor) == (seen.status, seen.episodeId, seen.replyCursor)
    then Changed(stored, change, now)
    else stored
  }
}
