# Verification of the software agent factory's core protocols

A Dafny model of the parts of the factory that have to be right without a human looking: reading JSON
out of an agent's free text, publishing exactly the reviewed commit, reading replies from a growing
comment thread, posting the notice of a halted run, and three smaller parsers and policies. Code that
updates state is modelled with classes, methods and loops, each proved equal to a function; the
lemmas are about those functions.

`dafny verify dfyconfig.toml` checks the whole project (Dafny 4.11).

## What is proved

**JSON objects in free text** (`JsonText`, `JsonScanner`, `BraceMatching`, `JsonGrammar`, `JsonObjects`,
`JsonFailures`, `JsonDocuments`, `NestedDicts`). For each `{` the scanner looks for the closing `}` with a
string automaton and a stack, remembers pairs and unclosed braces, and stops at a work limit. `Match` is
one fresh pass without memory or limit; in any text it finds exactly the closing brace that a grammar of
strings and braces alone describes. Everything remembered always agrees with `Match`, after any sequence of
searches and after searches that the limit cut off, so a search that stays below the limit does not depend
on what was searched before, and it is not paid for twice. A run under any limit returns a prefix of what a
run with no memory and no limit returns, and a higher limit only extends it. The charged work stays within
the limit, and the brace searches and white-space runs, which are not charged, cost at most two passes.
For every object of RFC 8259 (sections 2, 4, 5 and 7) in any text the search returns exactly its last
brace, so the objects of a text come back whole, among prose whose own braces close nothing, if the
limit is above the price of the text. Among candidates that close but do not decode, every text falls into
parts that are told from the text and the failure budget alone, and the run returns exactly their objects:
an object after or inside failed ones comes back while the failures stay below the budget, the failure that
uses the budget up leads past the object from which it counts, and an accepted object starts a new count.
Nested dictionaries come back once each, level by level.

**Publication** (`Publication`, `Publisher`). A transition system whose steps are the controller's git
calls, with crashes, restarts, outside moves of any ref, of HEAD and of the remote branch, and pushes,
receipts and branch moves that land while reporting an error. In every interleaving the only commit
that the controller moves the branch to or pushes is the recorded receipt, which has the reviewed tree
and the approved parent alone; at most one commit is ever recorded; a call that nothing disturbs
finishes, from anywhere a crash left it; and a call with an obstacle in its way does nothing that lasts.
The push loop ends well exactly when one of its two pushes succeeds, or is found on the remote branch after
it was lost; the second is sent exactly when the first was lost and not found.
`Publisher` writes the call as methods that branch on what they read, with arbitrary outside events
before every git call; each is a run of the system, so what holds of runs holds of it.

**Replies** (`CommentThread`, `ReplyPoller`, `ReplyCursor`, `ReplyCoverage`, `ReplyProgress`,
`ReplyAcceptance`, `NoticeReplies`). Over any sequence of polls, page boundaries, listing errors, retryable
stops and new comments, a comment that the persisted cursor has behind it was examined. Where a poll leaves
its cursor is told, on every way out, from the comments that it refused. The reply a poll accepts is the
first valid one. A thread that no longer grows is read to its end, or answered, within the number of polls
its length takes. Replies are read from the time that GitHub gave the notice, so this holds of every comment
after the notice.

**Escalation records and notices** (`EscalationRecords`, `NoticeDelivery`, `NoticePosting`,
`EscalationLifecycle`). Any number of deliveries and polls are under way at once; each works on a copy.
A poll that holds an old copy changes nothing that moved on. A delivery writes its whole copy. So a
gate that is shut in an episode stays shut, in every state of a run in which that episode is stored,
exactly when no delivery writes an open copy of the episode, over whatever is stored then; and no accepted
reply is lost exactly when no delivery writes after a reply was accepted since its read. Both directions
are proved, with a run for each failure. A comment is accepted exactly when the stored record is of the
episode that its poll read, waits for a human, and has its window open and a reopen left. Reopens are within
the limit in every run. At most one notice of an episode lands when no check overlaps another attempt's post
and every check reads the whole listing of the target that an earlier notice went to; for one attempt the
condition is exact. A stored record that is notified always names a standing comment with the marker.

**Code spans, raw diffs, scope drift** (`CodeSpans`, `RawDiff`, `ScopeDrift`, `ScopeFindings`,
`ApprovalRounds`, `ScopeRounds`; `Sequences` has splitting and first occurrences). The linear backtick
pairing is the pairing that section 6.1 of CommonMark 0.31.2 describes, of which there is only one.
Parsing what `git diff --raw -z` writes returns exactly the paths, and which other output is parsed is exact
too. What is found and decided is told from the changed files, the plan and the approvals: a path is in a
module when its first components are the module's. Approving scope findings leads to CONTINUE in two rounds
for settled paths; for any paths and any number of approvals the exact condition for clearing the sensitive
ones is proved.

## Findings

- One quiet sweep of the reply poller over a listing of a positive multiple of 200 comments ends with
  an empty page, and the cursor goes back to page one with the time it had (`ReplyProgress.SweepMovesTime`).
  The next sweep reads the same comments again. No comment is lost, but the cursor's time does not move
  until the length of the listing changes.
- `_normalize_path` is not idempotent: `/./a` becomes `./a`, and that becomes `a`. An approval stores a
  normal form, which is normalized once more before it is compared. A sensitive changed path that no
  changed path reaches by normalizing again, once or twice, therefore needs a human after any number of
  approvals (`ScopeRounds.UnsettledIsStuck`); the longest path that is no fixed point is always one, and
  `/./a` alone is another (`ScopeRounds.DotSlashIsStuck`). Beside `/.//./a` it is not stuck
  (`ScopeRounds.AnotherPathCoversIt`). For one approval the exact condition is
  `ScopeDrift.ApprovalClearsExactlyWhen`, for any number `ScopeRounds.ClearExactlyWhen`; in the changed
  paths alone, `ScopeRounds.SensitiveClearExactlyWhenSettled` when all are sensitive and
  `ScopeRounds.NoModuleClearExactlyWhen` when the plan names no module.
- The claim at `halt_contexts.py:423` that an approval clears the findings holds for the sensitive ones,
  but the next assessment can have a new, not sensitive finding. `OneApprovalContinuesExactlyWhen` says
  when; `OneApprovalIsNotAlwaysEnough` is a concrete case.
- The notice can be posted twice in three ways, after a post that landed but was reported lost or beside
  another attempt: a failed listing is swallowed and a post follows
  (`NoticePosting.LostPostAndListingErrorPostTwice`); the next attempt resolves another target, because the
  pull request closed or could not be read (`NoticePosting.TargetSwitchPostsTwice`); and two attempts check
  before either posts, for the worker that halts a run delivers while the service reconciles
  (`NoticePosting.OverlapPostsTwice`). In the last two, every check is complete. Without these, it is posted
  at most once (`NoticePosting.AtMostOneNotice`), and `NoticePosting.SecondNoticeExactlyWhen` says exactly
  when one attempt posts it again.
- A delivery saves the whole record from the copy it read, without a comparison. A dashboard reply that is
  accepted while it is under way is lost: the record is notified again, with the old reopen count and
  without the receipt (`EscalationLifecycle.LateSaveLosesReply`). A gate that a poll closed is open again
  after the save of a second, slower delivery (`EscalationLifecycle.LateSaveOpensClosedGate`), and that save
  can even bring a closed episode back over a newer one (`EscalationLifecycle.LateSaveBringsEpisodeBack`).
  Exactly when this happens: `EscalationLifecycle.RepliesKeptExactlyWhen` and
  `EscalationLifecycle.GateKeptExactlyWhen`.
- The class comment of `_JsonObjectScanner` says that a scan of an enclosing object skips braces that
  are resolved already. The code reads every character again; a remembered pair is used only by a
  search that starts on its own brace. The model follows the code.
- A failure budget below two in `_NestedFailureTracker` acts as two, since the first failure only opens
  the count (`JsonObjects.NestedFailuresJumpOut`).

## Assumptions about the outside

- Comments: the thread is append-only, ids increase, comments are in order of creation, an unedited
  comment is listed by its creation time, `since` is inclusive and a page holds 100.
- Git: objects are named by their content, so a name never changes its commit. A push that reports
  success landed. Restart passes the persisted receipt.
- The notice carries its marker, and the fallback times of a comment are not needed: GitHub gives one.
- For `NoticePosting.AtMostOneNotice` only: GitHub's clock is at most two minutes behind; no check runs
  between the check and the post of another attempt, nor while a lost post can still land; and once a notice
  landed, every check goes to its target and reads the whole listing there.
- For `EscalationLifecycle.ClosedGateStaysClosed` only: no delivery writes an open copy of the episode once
  its gate is closed. For the growth part of `ReopensAreBounded` only: no delivery writes a copy that lacks an
  accepted reply. For `OneReplyPerEpisode` only: every delivery writes over a record of the episode it read
  whose gate is not shut.

## Model

| member | source | states |
|---|---|---|
| JsonScanner.ReadKeepsStack | src/software_agent_factory/agent_artifact.py:187-218 | after each character, a fresh pass from every open brace reaches this point with the right number of braces open, and every new pair is a match |
| JsonScanner.ScanAgrees | src/software_agent_factory/agent_artifact.py:181-218 | a scan below the limit finds the match of its brace, a scan at the limit finds nothing, every pair it stores is a match either way, and braces open at the end of the text have none |
| JsonScanner.ScanCost | src/software_agent_factory/agent_artifact.py:190-198 | the exact price of a scan, and that reaching the limit costs exactly the limit |
| JsonScanner.FindAgrees | src/software_agent_factory/agent_artifact.py:162-179 | a search keeps the whole memory equal to fresh passes, and answers like a search without memory unless the limit is reached |
| JsonScanner.FindCost | src/software_agent_factory/agent_artifact.py:162-198 | a search never passes the limit and costs at most one pass over the rest of the text |
| JsonScanner.FindIgnoresHigherLimit | src/software_agent_factory/agent_artifact.py:162-198 | a search that stayed below its limit does the same under a higher one |
| JsonScanner.SearchesAgree | src/software_agent_factory/agent_artifact.py:142-218 | after any sequence of searches, cut off or not, every remembered pair is a match and every remembered unclosed brace has none |
| JsonScanner.SearchIgnoresHistory | src/software_agent_factory/agent_artifact.py:142-179 | two scanners with any histories give the same answer from a brace when both stay below the limit |
| JsonScanner.SearchIsPaidOnce | src/software_agent_factory/agent_artifact.py:162-179 | once a search from a brace was not cut off, a later one from it, after any others, reads nothing, gives the same answer and changes nothing |
| JsonScanner.DefaultLimitIs | src/software_agent_factory/agent_artifact.py:139-141 | the caller's limit, or the larger of one hundred thousand and ten lengths |
| BraceMatching.ClosesExactlyWhen | src/software_agent_factory/agent_artifact.py:181-218 | in any text, JSON or not, a pass finds `end` exactly when strings, braces in pairs and other characters stand between the two braces |
| BraceMatching.SearchFindsExactlyWhen | src/software_agent_factory/agent_artifact.py:148-179 | a search finds `end` exactly when that holds and the next character after white space is a quote or a closing brace |
| JsonScanner.JsonObjectScanner.constructor | src/software_agent_factory/agent_artifact.py:130-143 | an empty memory, the caller's work counter, and the default limit when none is given |
| JsonScanner.JsonObjectScanner.IsScannableStart | src/software_agent_factory/agent_artifact.py:148-160 | accepts exactly a brace not known unclosed whose next character after white space is a quote or a closing brace, and reads only that run |
| JsonScanner.JsonObjectScanner.FindObjectEnd | src/software_agent_factory/agent_artifact.py:162-179 | the answer and the whole new memory; the plain answer whenever one is returned or the limit is not reached |
| JsonScanner.JsonObjectScanner.ScanMatchingBrace | src/software_agent_factory/agent_artifact.py:181-218 | the loop over characters leaves the result, the open braces, the pairs and the work of the scan function |
| JsonGrammar.CrossesValue | src/software_agent_factory/agent_artifact.py:111-118 | a pass over any JSON value comes out with the same string state and the same number of open braces, by induction on nested values |
| JsonGrammar.CrossesString | src/software_agent_factory/agent_artifact.py:111-118 | the string automaton leaves a JSON string, escapes included, exactly at its closing quote |
| JsonGrammar.ObjectIsScannable | src/software_agent_factory/agent_artifact.py:148-160 | the next-character filter accepts the first brace of every JSON object |
| JsonGrammar.ObjectEndIsFound | src/software_agent_factory/agent_artifact.py:111-218 | for every RFC 8259 object at [start, end) in any text, the search from start returns end - 1 |
| JsonGrammar.ObjectEndIsUnique | src/software_agent_factory/agent_artifact.py:181-218 | no JSON object is a proper prefix of another one at the same brace |
| JsonObjects.FailuresStayBounded | src/software_agent_factory/agent_artifact.py:221-244 | over any failures the tracker is reset or holds between one and budget - 1 failures against a known object |
| JsonObjects.NestedFailuresJumpOut | src/software_agent_factory/agent_artifact.py:233-244 | of failures nested in one object, exactly the last of the budget resumes one past that object and resets; the others resume one past their own start |
| JsonObjects.NestedFailureTracker.RecordFailure | src/software_agent_factory/agent_artifact.py:233-244 | the new fields and the resume index in place |
| JsonObjects.Continue | src/software_agent_factory/agent_artifact.py:263-283 | every way on resumes after the brace, which is why the loop ends, and an accepted object resumes past both its decoded text and its last brace; what follows a failure is the subject of `JsonFailures` |
| JsonObjects.LoopIsPrefixOfPlain | src/software_agent_factory/agent_artifact.py:247-285 | under any limit the run returns a prefix of the run without memory and limit, and all of it, with as many candidates tested, when the limit was not reached |
| JsonFailures.ObjectAfterFailures | src/software_agent_factory/agent_artifact.py:271-282 | after candidates that do not decode, nested or not, and stay below the budget, the next object comes back, and the run goes on after it with nothing counted |
| JsonFailures.FewStayBelow | src/software_agent_factory/agent_artifact.py:233-244 | fewer failures than the budget, which is at least two, always stay below it |
| JsonFailures.UsedUpBudgetLeadsOut | src/software_agent_factory/agent_artifact.py:233-244 | the failure that uses up the budget leads past the end of the object from which it counts, with nothing counted |
| JsonFailures.RunIsReading | src/software_agent_factory/agent_artifact.py:247-285 | whatever parts of kept objects and used-up budgets a text falls into, the run returns exactly their objects and tests exactly their candidates |
| JsonFailures.EveryTextFallsIntoParts | src/software_agent_factory/agent_artifact.py:247-285 | every text falls into such parts |
| JsonFailures.LoopIsReading | src/software_agent_factory/agent_artifact.py:247-285 | the bounded, remembering run returns a prefix of their objects, and all of them, with as many candidates tested, when the limit was not reached |
| JsonObjects.HigherLimitExtends | src/software_agent_factory/agent_artifact.py:142-147 | raising the limit only extends what a run returns |
| JsonObjects.WorkStaysBounded | src/software_agent_factory/agent_artifact.py:195-198 | the work counter of a whole run never passes the limit unless it started past it |
| JsonObjects.FoundInOrder | src/software_agent_factory/agent_artifact.py:257-285 | accepted objects start on braces, strictly increase and are pairwise disjoint |
| JsonObjects.LoopFoundInOrder | src/software_agent_factory/agent_artifact.py:257-285 | the same for the bounded, remembering run |
| JsonObjects.BraceEndsSpaces | src/software_agent_factory/agent_artifact.py:154-159 | the white-space runs after two different braces are disjoint, so their total stays within one pass |
| JsonObjects.TestCandidate | src/software_agent_factory/agent_artifact.py:268-283 | what one decoded candidate adds, the tracker after it and the resume index |
| JsonObjects.IterJsonObjects | src/software_agent_factory/agent_artifact.py:247-285 | the loop returns the objects of the run function, leaves its counters, and does uncharged work of at most twice the text |
| JsonDocuments.EveryObjectIsReturned | src/software_agent_factory/agent_artifact.py:247-285 | from text of RFC 8259 objects and prose, whose braces close nothing, exactly the objects come back in order, within the stated price, if the limit is above it |
| JsonDocuments.DefaultLimitReturnsEveryObject | src/software_agent_factory/agent_artifact.py:139-141 | the default limit is not in the way of a text's objects, with up to eight braces in the prose that pass the filter and close nothing, and any number that do not pass |
| JsonDocuments.PriceIsBounded | src/software_agent_factory/agent_artifact.py:148-179 | the price of a text is at most one pass, and one more for each brace of the prose that the filter lets through |
| NestedDicts.EveryDictOnce | src/software_agent_factory/agent_artifact.py:288-332 | no dictionary is returned twice, and of a tree every dictionary at any depth is returned |
| NestedDicts.RunIsByLevel | src/software_agent_factory/agent_artifact.py:311-332 | the dictionaries come level by level, the payload first |
| NestedDicts.Traversal.QueueNestedCandidates | src/software_agent_factory/agent_artifact.py:288-308 | the three shared collections after looking at a list of values |
| NestedDicts.IterNestedDicts | src/software_agent_factory/agent_artifact.py:311-332 | the queue loop returns the candidates of the run function |
| Publication.EventIsSafe | src/software_agent_factory/git_publish.py:398-481 | every controller step, crash, restart and outside change keeps the protocol invariant, and objects, receipt and log only extend |
| Publication.EveryRunPublishesOnlyTheReceipt | src/software_agent_factory/git_publish.py:415-481 | in every interleaving each branch move and push is of the one recorded receipt, with the reviewed tree and the approved parent alone; at most one receipt, two pushes a call, and a returned call saw its commit on the remote |
| Publication.ControllerTouchesOnlyTheReceipt | src/software_agent_factory/git_publish.py:449-481 | all that one controller step can change: the branch by compare-and-swap from the parent to a receipt recorded before, the remote to that receipt, and nothing of either without a log entry |
| Publication.RecordIsSafe | src/software_agent_factory/git_publish.py:453-458 | the receipt is recorded before any lasting action, and is of a commit of the approved shape |
| Publication.ReceiptIsNeverReplaced | src/software_agent_factory/pr_delivery.py:188-204 | from any state at all and in any run, a receipt that is there stays: another one is refused |
| Publication.BlockedRunDoesNothing | src/software_agent_factory/git_publish.py:415-469 | with HEAD off the branch or off parent and receipt, or with an empty or out-of-scope change, no run records, moves or pushes |
| Publication.FirstCallCompletes | src/software_agent_factory/git_publish.py:415-481 | an undisturbed first call records the new commit, then moves the branch from the parent, then pushes |
| Publication.CallCompletes | src/software_agent_factory/git_publish.py:460-481 | an undisturbed call with a receipt ends with branch and remote at it, and changes nothing when they were there |
| Publication.CrashAnywhereThenRecover | src/software_agent_factory/git_publish.py:398-401 | after a crash at any moment of any run that had acted, one more undisturbed call completes, and a further one changes nothing |
| Publication.PushLoopEnds | src/software_agent_factory/git_publish.py:535-599 | with anything outside before each call: the loop ends well exactly when the first push succeeds, or is lost and found by one of two looks, or is lost, not found, and the second does so; else it fails; a second push is sent exactly then and never a third |
| Publication.SecondPushCompletes | src/software_agent_factory/git_publish.py:550-567 | with nothing outside, a second push completes after a first one that was lost and did not land |
| Publication.LandedPushIsSeen | src/software_agent_factory/git_publish.py:569-599 | a lost push that landed is recognised by either look |
| Publication.RecordSettles | src/software_agent_factory/git_publish.py:453-458 | the receipt is stored unless the call fails without storing it or another one is there, and the branch can move only after a call that reports success |
| Publication.MoveSettles | src/software_agent_factory/git_publish.py:468-472 | the branch moves by compare-and-swap from the approved parent, all of it or nothing, and the remote is looked at only after a call that reports success |
| Publication.ErrorsFail | src/software_agent_factory/git_publish.py:415-481 | a git call that fails for good ends the call and leaves refs, remote branch, receipt and objects alone |
| Publisher.GitPublisher.PublishBoundCommit | src/software_agent_factory/git_publish.py:415-481 | whatever happens between its git calls, a returned commit is the recorded receipt, has the approved shape and was on the remote branch during the call; otherwise the call fails |
| Publisher.GitPublisher.PrepareCommit | src/software_agent_factory/git_publish.py:431-458 | a new commit reaches the branch move only after a change was seen, in scope, with the approved shape, and with its receipt recorded and nothing else done |
| Publisher.GitPublisher.ChooseCommit | src/software_agent_factory/git_publish.py:429-466 | the commit to publish is the receipt, of the approved shape, and the value read for HEAD is the approved parent or that commit |
| Publisher.GitPublisher.VerifyReceipt | src/software_agent_factory/git_publish.py:459-466 | a recorded commit goes on only with its shape intact and HEAD at the parent or at it |
| Publisher.GitPublisher.UpdateRef | src/software_agent_factory/git_publish.py:468-472 | the branch moves only from the approved parent to the commit, no other ref changes, and nothing moves when HEAD was at the commit |
| Publisher.GitPublisher.PushRef | src/software_agent_factory/git_publish.py:535-567 | at most two pushes, the second only after a transient loss; it returns exactly when the last push succeeded or was seen after it was lost, and then the remote branch held exactly the commit since the call began; it gives up on any other error, or after two |
| Publisher.GitPublisher.PushLandedAfterFailure | src/software_agent_factory/git_publish.py:569-586 | a failed push counts as landed exactly when one of the two looks saw the commit, and then the remote branch holds it |
| Publisher.GitPublisher.RemoteTipIs | src/software_agent_factory/git_publish.py:588-599 | true exactly when the look did not fail and the remote branch holds the commit |
| ReplyPoller.ReadPage | src/software_agent_factory/escalation.py:1390-1433 | the comment loop: latest id and time, the examined comments and the first stop of the scan function |
| ReplyPoller.PollEscalationReply | src/software_agent_factory/escalation.py:1347-1458 | the page loop returns the next cursor, the reply and the examined comments of the poll function |
| ReplyCursor.ScanRefuses | src/software_agent_factory/escalation.py:1391-1433 | a page's scan examines exactly the comments that it refuses up to the first other one, holds the latest of their times and ids, and stops at that one |
| ReplyCursor.LatestTimeIs | src/software_agent_factory/escalation.py:1432-1433 | the time that a poll holds is the greatest of its cursor's and those of the comments it refused |
| ReplyCursor.LatestIdIs | src/software_agent_factory/escalation.py:1430-1431 | the same for the last id |
| ReplyCursor.PollLeaves | src/software_agent_factory/escalation.py:1364-1458 | where one poll leaves its cursor and what it examined, on every way out: after a reply, a comment to be tried again, a short, empty or failed listing, on either page |
| NoticeReplies.ReadSinceNotice | src/software_agent_factory/escalation.py:861-943 | replies are read from the time of the comment that the notified record names, or from the earlier time of the record |
| NoticeReplies.NoReplyIsLost | src/software_agent_factory/escalation.py:943-1348 | over any polls after a delivery, a comment that stands after the notice and that the cursor has behind it was examined |
| NoticeReplies.EveryReplyIsRead | src/software_agent_factory/escalation.py:1364-1445 | once the thread stays quiet, every comment after the notice is examined within the polls that the rest of the listing takes |
| EscalationRecords.GateIsOpenExactlyWhen | src/software_agent_factory/escalation_protocol.py:134-158 | the gate is open exactly when escalation is on, the notice is posted with instructions, the cursor is open, the window, its last moment included, is not over, a reopen is left and the host is allowed |
| EscalationRecords.FirstFailureIsTheCause | src/software_agent_factory/escalation_protocol.py:134-158 | the cause is that of the first of these that fails |
| ReplyCoverage.PagesExtendDone | src/software_agent_factory/escalation.py:1364-1445 | one poll only adds to what was examined, and leaves a cursor that has only examined comments behind it |
| ReplyCoverage.NoCommentIsLost | src/software_agent_factory/escalation.py:1347-1458 | over any sequence of polls, a comment behind the persisted cursor was examined |
| ReplyProgress.QuietPollMoves | src/software_agent_factory/escalation.py:1364-1445 | where one quiet poll leaves the cursor: two pages on, at the last comment, or back at page one |
| ReplyProgress.QuietThreadIsRead | src/software_agent_factory/escalation.py:1364-1445 | in a quiet thread every comment since the notice is examined within ceil(ceil(n/100)/2) polls, after any earlier polls |
| ReplyProgress.SweepMovesTime | src/software_agent_factory/escalation.py:1386-1388 | after a sweep the cursor is at page one, with the time it had if the listing is a multiple of 200, and else with the last comment's time |
| ReplyAcceptance.ReplyIsFirstValid | src/software_agent_factory/escalation.py:1391-1420 | an accepted reply is the first valid comment that the cursor does not have behind it, and all before it got a definite no |
| ReplyAcceptance.ThreadIsReadOrAnswered | src/software_agent_factory/escalation.py:1364-1445 | with replies in the thread, the same number of polls accepts one or examines every comment |
| EscalationLifecycle.ClosedGateStaysClosed | src/software_agent_factory/escalation_protocol.py:134-158 | once the gate of a notified record is closed it is closed whenever its episode is stored, under polls, deliveries under way, accepts, new episodes and time, if no delivery writes an open copy of it |
| EscalationLifecycle.StepOpensExactlyWhen | src/software_agent_factory/escalation.py:883-986 | one step opens an episode's shut gate, or brings the episode back open, exactly when a delivery writes a copy of it that waits for its notice, or carries instructions with window, count and host still good, whatever is stored |
| EscalationLifecycle.GateKeptExactlyWhen | src/software_agent_factory/escalation.py:883-986 | a gate shut in an episode is shut in every state of a run with that episode stored, exactly when the run has no such write |
| EscalationLifecycle.InTimeWritesNone | src/software_agent_factory/escalation.py:883-986 | deliveries that write only over the episode they read, while its gate is not shut, make no such write |
| EscalationLifecycle.LateSaveOpensClosedGate | src/software_agent_factory/escalation.py:934-963 | a run in which the save of a second delivery opens the gate that a poll closed |
| EscalationLifecycle.LateSaveBringsEpisodeBack | src/software_agent_factory/escalation.py:934-963 | the same with a new episode in between: the late save brings the closed episode back with an open gate |
| EscalationLifecycle.SaveTouchesOnlyWhatItSaw | src/software_agent_factory/escalation.py:1179-1200 | a poll's save changes only the record, episode and cursor it read, and of it only cursor, switch, time and, once its window is over, status |
| EscalationLifecycle.StalePollSavesNothing | src/software_agent_factory/escalation.py:1179-1200 | a poll with an old copy never changes a reopened, closed or replaced record |
| EscalationLifecycle.OnePollSettles | src/software_agent_factory/escalation.py:1203-1239 | the whole record after an undisturbed poll: closed or expired exactly on the stated conditions, moved only through an open gate, and untouched with escalation off, no posted notice or a closed cursor |
| EscalationLifecycle.ReopensAreBounded | src/software_agent_factory/escalation_models.py:687-697 | over all episodes and any run the reopen count stays within the limit and counts the receipts; both only grow if no delivery writes late |
| EscalationLifecycle.RepliesKeptExactlyWhen | src/software_agent_factory/escalation.py:934-988 | a run loses no accepted reply exactly when no delivery writes after a reply was accepted since its read |
| EscalationLifecycle.LateSaveLosesReply | src/software_agent_factory/escalation.py:934-963 | a run in which a delivery's save takes back an accepted dashboard reply |
| EscalationLifecycle.PollAcceptsExactlyWhen | src/software_agent_factory/resume_writes.py:81-117 | a polled comment is accepted exactly when the stored record is of the episode that the poll read, waits for a human, has its window open at the poll's time and a reopen left, and the context holds; then its receipt is added, a reopen counted and the cursor closed, and otherwise nothing changes |
| EscalationLifecycle.DashboardAcceptsExactlyWhen | src/software_agent_factory/resume_writes.py:95-117 | the same for a dashboard request, judged at the time it was made |
| EscalationLifecycle.AcceptedCommentWasReadOpen | src/software_agent_factory/escalation.py:1318-1324 | in every reachable state an accepted comment was read by a poll that found the gate of the same episode open |
| EscalationLifecycle.AcceptChecksAgain | src/software_agent_factory/resume_writes.py:81-117 | apart from a delivery's write, a receipt is added by one of the two accepts only, one at a time |
| EscalationLifecycle.StatusMoves | src/software_agent_factory/escalation_models.py:669-697 | within an episode the status only goes from notified to expired, from waiting to reopened and from reopened to resumed, except by a delivery's write; a new episode starts over with the run's receipts and count |
| EscalationLifecycle.OneReplyPerEpisode | src/software_agent_factory/resume_writes.py:81-117 | an episode accepts at most one reply over any run, by either path, if every delivery writes in time |
| EscalationLifecycle.NextIsOk | src/software_agent_factory/escalation.py:1308-1343 | every step keeps what polls and deliveries under way rely on: a poll read a notified record with an open cursor, a delivery one that waits for its notice |
| NoticeDelivery.FindMarked | src/software_agent_factory/escalation.py:824-845 | the listing loop returns the comments with the marker, up to three pages and none after an error |
| NoticeDelivery.PostsExactlyWhen | src/software_agent_factory/escalation.py:744-955 | an attempt adds a comment exactly when it is due, target and own identity are known, the check saw no marker and the post lands |
| NoticeDelivery.DeliverIsOk | src/software_agent_factory/escalation.py:744-988 | attempts stay within the maximum, a failed notice is closed with remote resume off, and episode and counts are untouched |
| NoticeDelivery.NotTried | src/software_agent_factory/escalation.py:720-759 | a delivery that is off or done leaves the record alone; one whose attempts are used up fails it and closes it to replies |
| NoticeDelivery.AttemptIsCounted | src/software_agent_factory/escalation.py:761-988 | any other attempt is counted, stores the target it resolved and keeps episode, receipts and reopen count |
| NoticeDelivery.AttemptSettles | src/software_agent_factory/escalation.py:761-988 | any other attempt leaves the record notified, waiting for another one or failed, exactly on the stated conditions; open to replies exactly when notified with instructions; and the notice time as stated |
| NoticeDelivery.NewlinesBecomeUnix | src/software_agent_factory/escalation.py:849 | the bodies are compared with every carriage return and line feed pair as a line feed and nothing else changed |
| NoticeDelivery.HoldsMarkerExactlyWhen | src/software_agent_factory/escalation.py:840 | the marker is held exactly when the body is something, the marker, and something |
| NoticePosting.DeliveriesStayOk | src/software_agent_factory/escalation.py:744-988 | over any run the attempt bound and the closed failed notice hold in the store and in every copy |
| NoticeDelivery.NotifiedNamesANotice | src/software_agent_factory/escalation.py:847-956 | a record that becomes notified names the comment just posted, with the time GitHub gave it, or one with the marker, the same body and the factory as author, with its time or the earlier one of the record |
| NoticeDelivery.CompleteCheckSees | src/software_agent_factory/escalation.py:826-843 | a check without errors of at most 300 listed comments sees a marker that is there |
| NoticeDelivery.SeesExactlyWhen | src/software_agent_factory/escalation.py:826-845 | a check sees a marker exactly when the part of the listing before its failing page, or the first 300, holds one |
| NoticePosting.CheckPostsExactlyWhen | src/software_agent_factory/escalation.py:824-955 | with any attempts under way, a check leads to a post exactly when its attempt is due by its copy and what it reads holds no marker |
| NoticePosting.SecondNoticeExactlyWhen | src/software_agent_factory/escalation.py:824-955 | given the one notice that landed, a due attempt posts again exactly when its target is another one or its check does not reach that notice |
| NoticePosting.AtMostOneNotice | src/software_agent_factory/escalation.py:824-955 | with safe checks at most one notice of an episode lands, over all targets, with any attempts under way and however posts are lost |
| NoticePosting.LostPostAndListingErrorPostTwice | src/software_agent_factory/escalation.py:844-845 | a lost post that landed and a swallowed listing error post the notice twice |
| NoticePosting.TargetSwitchPostsTwice | src/software_agent_factory/escalation.py:609-647 | one attempt after the other, both checks complete: the target moved from the pull request to the issue, and the notice stands on both |
| NoticePosting.OverlapPostsTwice | src/software_agent_factory/workflow.py:1168-1183 | two attempts at one target, both checks complete and before either post: both post |
| NoticePosting.NotifiedNamesAStandingNotice | src/software_agent_factory/escalation.py:847-956 | over any run a stored record that is notified names a comment with the marker in the thread of its own target |
| CodeSpans.RunsAreMaximal | scripts/docs/check_simple_english.py:78 | the runs are the maximal backtick strings in order, and every backtick is in one |
| CodeSpans.CloserIsNext | scripts/docs/check_simple_english.py:79-84 | the closer of a run is the next run of as many backticks, and there is none exactly when no later run has as many |
| CodeSpans.SearchPairs | scripts/docs/check_simple_english.py:85-94 | the naive search gives pairs in order, each of two runs of as many backticks with none such between, and no run outside has a later run of as many |
| CodeSpans.PairingIsUnique | scripts/docs/check_simple_english.py:73-77 | there is only one pairing with these properties |
| CodeSpans.SpansArePairs | scripts/docs/check_simple_english.py:92-93 | a span runs from the start of its opener to the end of its closer |
| CodeSpans.SpansAreDisjoint | scripts/docs/check_simple_english.py:85-94 | spans lie in the text, increase, are disjoint and start and end with whole runs |
| CodeSpans.NextRuns | scripts/docs/check_simple_english.py:79-84 | the reverse pass gives each run the next run of its width, as the naive search does |
| CodeSpans.InlineCodeSpans | scripts/docs/check_simple_english.py:72-94 | the linear pairing returns the spans of the naive search |
| CodeSpans.MaskSpan | scripts/docs/check_simple_english.py:101-104 | in place, exactly the characters of the stretch become blanks, newlines excepted |
| CodeSpans.MaskInlineCode | scripts/docs/check_simple_english.py:175-176 | exactly the characters of the code spans become blanks, and every line keeps its length |
| RawDiff.ParseRawDiffChangedFiles | src/software_agent_factory/git_safety.py:200-222 | the loop returns the paths or the error of the parse function |
| RawDiff.RawDiffRecord | src/software_agent_factory/git_safety.py:185-197 | a record takes the tokens between its header and the next index, and always moves on |
| RawDiff.SplitsTerminated | src/software_agent_factory/git_safety.py:213 | stripping and splitting undoes terminating each token with NUL |
| RawDiff.StripsNuls | src/software_agent_factory/git_safety.py:213 | stripping takes all NULs at the end and nothing else |
| Sequences.SplitCuts | src/software_agent_factory/git_safety.py:213 | splitting cuts at every separator and nowhere else |
| RawDiff.LastFieldIs | src/software_agent_factory/git_safety.py:190-191 | the last field of a token is its last word, whatever white space follows |
| RawDiff.StatusIsLastField | src/software_agent_factory/git_safety.py:190-191 | the last field of a header is its status |
| RawDiff.ParseOfRender | src/software_agent_factory/git_safety.py:200-222 | parsing what git writes, two paths for the letters `R` and `C` and one for any other, returns exactly the paths of all records, each once, in order of first occurrence |
| RawDiff.ParsesExactlyWhen | src/software_agent_factory/git_safety.py:185-222 | any output is parsed exactly when its tokens are headers with a colon, each with two paths for `R` or `C` and one otherwise, and empty tokens between; then the result holds their distinct paths in order |
| RawDiff.TruncatedOutputIsRefused | src/software_agent_factory/git_safety.py:192-196 | output that ends before the paths of its last header is refused |
| ScopeDrift.NormalizePath | src/software_agent_factory/governance.py:465-469 | the loop that drops leading `./` gives the normal form |
| ScopeDrift.FixedExactlyWhenSettled | src/software_agent_factory/governance.py:465-469 | a normal form is a fixed point exactly when it does not start with `./` and has no white space at an end; otherwise normalizing it again shortens it |
| ScopeDrift.UniqueNormalizedPaths | src/software_agent_factory/governance.py:626-634 | the distinct non-empty normal forms in order |
| ScopeDrift.AssessScope | src/software_agent_factory/governance.py:502-624 | the findings in order and the decision of the assessment function |
| ScopeDrift.DecisionIs | src/software_agent_factory/governance.py:619-624 | NEEDS_HUMAN exactly when some path to check is sensitive, CONTINUE exactly when none is and not all are unexpected |
| ScopeFindings.UniqueIsInOrder | src/software_agent_factory/governance.py:626-634 | the paths looked at are the distinct normal forms that are not empty, in order of first occurrence |
| ScopeFindings.UnderExactlyWhen | src/software_agent_factory/governance.py:484 | a path is under a module exactly when its first components are the module's |
| ScopeFindings.HumanIsNeededExactlyWhen | src/software_agent_factory/governance.py:510-624 | a human is needed exactly when the normal form of some changed file, not empty and of no approved path, is a migration or infrastructure file, or a dependency or workflow file that is not both planned and approved beforehand |
| ScopeFindings.ReplanExactlyWhen | src/software_agent_factory/governance.py:472-624 | for paths that are fixed points, a new plan is needed exactly when there are paths to check, none of them such, and the components of none start with those of a planned module |
| ScopeFindings.FindingsAre | src/software_agent_factory/governance.py:515-617 | at most one finding of each category, in order, sensitive exactly when not of an unexpected module, with exactly the paths that count for it |
| ScopeFindings.FoundExactlyWhen | src/software_agent_factory/governance.py:529-617 | a sensitive category is found exactly when some checked path counts for it |
| ScopeDrift.UnexpectedAre | src/software_agent_factory/governance.py:472-485 | for settled paths all are unexpected, or none counts, which is exactly when one of them is in scope |
| ScopeDrift.ApprovalClearsExactlyWhen | src/software_agent_factory/governance.py:510-513 | for all paths, an approval leaves no sensitive finding exactly when each sensitive path is settled or another path found normalizes to it |
| ScopeDrift.ApprovalRemoves | src/software_agent_factory/governance.py:510-513 | for settled paths an approval takes out exactly the sensitive ones, or all when all are unexpected |
| ScopeDrift.ApprovalClearsSensitive | src/software_agent_factory/halt_contexts.py:423-424 | for settled paths one approval leaves no sensitive finding |
| ScopeDrift.OneApprovalContinuesExactlyWhen | src/software_agent_factory/halt_contexts.py:423-437 | exactly when one approval leads to CONTINUE |
| ScopeDrift.OneApprovalIsNotAlwaysEnough | src/software_agent_factory/halt_contexts.py:423-437 | a concrete change for which one approval leads to REPLAN |
| ScopeDrift.TwoApprovalsContinue | src/software_agent_factory/halt_contexts.py:423-437 | for settled paths two approvals always lead to CONTINUE |
| ScopeRounds.SingleFileClearsExactlyWhenSettled | src/software_agent_factory/governance.py:510-513 | any number of approvals clears a single sensitive file exactly when its normal form is settled |
| ScopeRounds.UnsettledIsStuck | src/software_agent_factory/governance.py:510-513 | a sensitive changed path that no changed path reaches by normalizing again needs a human after any number of approvals |
| ScopeRounds.ClearExactlyWhen | src/software_agent_factory/governance.py:510-513 | for any changed paths and any number of approvals nothing is left to ask exactly when each sensitive path is settled or another path approved so far normalizes to it |
| ScopeRounds.NoModuleClearExactlyWhen | src/software_agent_factory/governance.py:472-485 | when the plan names no module, exactly when each sensitive path is settled or another sensitive changed path normalizes to it |
| ScopeRounds.AssessingIsAssessment | src/software_agent_factory/governance.py:502-513 | a human is asked exactly about sensitive paths that no approved path covers, these are all found, and whatever is found is a changed path or one normalized once more |
| ScopeRounds.LongestUnsettledIsStuck | src/software_agent_factory/governance.py:465-469 | the longest changed path that is no fixed point, if sensitive, is such a path |
| ScopeRounds.SensitiveClearExactlyWhenSettled | src/software_agent_factory/halt_contexts.py:423-424 | when all changed paths are sensitive, any number of approvals clears them exactly when all are fixed points |
| ScopeRounds.DotSlashIsStuck | src/software_agent_factory/governance.py:465-469 | a concrete path that changes when it is normalized again, and the decision stuck at it |
| ScopeRounds.AnotherPathCoversIt | src/software_agent_factory/governance.py:510-513 | a concrete change in which another path takes the unsettled one out of what is checked |

## Left out

- Subprocesses, network, threads, command line, rendering, logging and pydantic validation: effects and plumbing; what git and GitHub answer is a parameter or an event.
- `json.JSONDecoder.raw_decode`: any function from a start index to its outcome. That it accepts what RFC 8259 allows, and `NaN` and `Infinity` besides, and that deep nesting can raise another error, is not modelled.
- Characters: Dafny's `char` has no lone surrogates; a JSON text with them is not covered by the grammar.
- `parse_artifact_from_candidates` and the validation of candidates against artifact schemas: each is one branch.
- `ensure_pushed` and `commit_and_push`: they use the same push loop after straight-line checks.
- Publication: branch-name, message, remote-host and object-name checks are refused calls; the scope rules are one flag of the request; a raw diff is empty exactly when the trees are equal. Clearing the receipt after the pull request exists is not modelled.
- Replies: the reply grammar, author checks and `validate_reply_candidate` are a verdict function; a malformed or missing cursor is `None`; the JSON encoding of the cursor is not modelled, and times are integers.
- Store: one load and one save are atomic each, and anything can happen between them. A decision context is a flag: valid or not for a poll, and valid and unchanged or not for an accept; fingerprints themselves are not modelled. A delivery also saves the rest of the run from its copy; only the escalation record is modelled.
- `classify_halt_reason`, the text of the notice, target resolution and the limit of runs per reconcile: the record, the body and the target are parameters.
- Case folding is ASCII; host names and logins are.
- NoticePosting.AtMostOneNotice: conditional on safe checks, because the code swallows a failed listing, resolves the target anew and lets attempts overlap; three witness lemmas show that each part is needed.
- EscalationLifecycle.ClosedGateStaysClosed: conditional on the deliveries' writes, because the code saves their copy without a comparison; `GateKeptExactlyWhen` shows that the condition is exact.
- EscalationLifecycle.ReopensAreBounded: growth is conditional in the same way; `LateSaveLosesReply` shows the need.
- Scope: the tables of dependency, migration, workflow and infrastructure files are arbitrary predicates, so a table lookup that raises (the path `.` has no first part) is not modelled; messages, file counts and the cap on the number of approved paths are left out.
- ScopeDrift.TwoApprovalsContinue: for paths whose normal form is a fixed point; `ScopeRounds.UnsettledIsStuck` shows why.
- The masks of `mask_markdown` other than inline code, and the sentence rules: regular expressions.
- `merging.py`, `lifecycle.py`, `config.py` and the classifiers of error text: straight-line checks and tables.
