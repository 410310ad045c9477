/** `publish_bound_commit` and the bounded push loop of `_push_ref`, call by call, over the publication
  machine.

  Each git call first lets the outside world act, then takes an answer nobody controls. The methods
  branch on the values they read, as the code does; their contracts say that whatever happens is a
  run of the machine, so everything proved about runs holds for them. */
module Publisher {
  import opened Wrappers
  import opened Publication

  /** The reviewed tree is not the tree of the approved parent. */
  predicate HasChange(s: State, req: Request) {
    !(req.parent in s.commits && s.commits[req.parent].tree == req.tree)
  }

  class GitPublisher {
    const req: Request
    var s: State
    ghost const start: State
    ghost var trace: seq<Event>

    ghost predicate Valid()
      reads this
    {
      Safe(s, req) && s == Run(start, req, trace)
    }

    constructor (req: Request, s: State)
      requires Safe(s, req)
      ensures Valid() && this.req == req && this.s == start == s
    {
      this.req, this.s, start, trace := req, s, s, [];
    }

    method Happen(es: seq<Event>)
      requires Valid()
      modifies this
      ensures Valid() && s == Run(old(s), req, es)
    {
      RunConcat(start, req, trace, es);
      RunIsSafe(s, req, es);
      s := Run(s, req, es);
      trace := trace + es;
    }

    /** Any number of outside events. */
    method Wait()
      requires Valid()
      modifies this
      ensures Valid() && (s.pc, s.receipt, s.log, s.pushes) == old((s.pc, s.receipt, s.log, s.pushes))
      ensures old(s.tips) <= s.tips
    {
      var es: seq<Event> := *;
      if forall e | e in es :: IsOutside(e) {
        OutsideKeepsPc(s, req, es);
        Happen(es);
      }
    }

    /** One git call and the answer to it. */
    method Step(answer: Answer)
      requires Valid()
      modifies this
      ensures Valid() && s == ControllerStep(old(s), req, answer)
    {
      assert Run(s, req, [Event.Step(answer)]) == Apply(s, req, Event.Step(answer)) by {
        assert [Event.Step(answer)][1..] == [];
      }
      Happen([Event.Step(answer)]);
    }

    /** `error` says whether the look itself failed, which counts as not the same. */
    method RemoteTipIs(commit: Sha) returns (same: bool, ghost error: bool)
      requires Valid() && s.pc.Reconcile? && s.pc.commit == commit
      modifies this
      ensures Valid()
      ensures same <==> !error && s.remote == Some(commit)
      ensures same ==> s.pc == Done(commit)
      ensures !same ==>
        var Reconcile(_, attempt, waited) := old(s.pc);
        s.pc == if !waited then Reconcile(commit, attempt, true)
                else if attempt == 0 then Push(commit, 1) else Failed
      ensures (s.receipt, s.log, s.pushes) == old((s.receipt, s.log, s.pushes))
    {
      Wait();
      var failed: bool := *;
      error := failed;
      same := !failed && s.remote == Some(commit);
      Step(if failed then Error else Fine);
    }

    /** `first` and `second` are what the two looks saw; the second is left out when the first saw it. */
    method PushLandedAfterFailure(commit: Sha) returns (landed: bool, ghost first: bool, ghost second: bool)
      requires Valid() && s.pc.Reconcile? && s.pc.commit == commit && !s.pc.waited
      modifies this
      ensures Valid()
      ensures landed <==> first || second
      ensures landed ==> s.pc == Done(commit) && s.remote == Some(commit)
      ensures !landed ==> s.pc == if old(s.pc.attempt) == 0 then Push(commit, 1) else Failed
      ensures s.pushes == old(s.pushes)
    {
      ghost var error;
      landed, error := RemoteTipIs(commit);
      first, second := landed, false;
      if !landed {
        Wait();
        landed, error := RemoteTipIs(commit);
        second := landed;
      }
    }

    method SendPush(commit: Sha) returns (answer: Answer)
      requires Valid() && s.pc.Push? && s.pc.commit == commit
      modifies this
      ensures Valid()
      ensures s.pc == if answer.Error? then Failed
                      else if !answer.Lost? then Done(commit)
                      else if answer.transient then Reconcile(commit, old(s.pc.attempt), false)
                      else Failed
      ensures s.pushes == old(s.pushes) + 1
    {
      Wait();
      answer := *;
      Step(answer);
    }

    /** At most two pushes, of the answers `sent`; the loop always returns or raises inside. It returns
      exactly when a push succeeds or is seen on the remote branch after it was lost, which then held exactly
      this commit at some moment since the call began; it gives up on an answer that is no transient loss, or
      after two. */
    method PushRef(commit: Sha) returns (ok: bool, ghost sent: seq<Answer>, ghost seen: bool)
      requires Valid() && s.pc == Push(commit, 0)
      modifies this
      ensures Valid()
      ensures ok ==> s.pc == Done(commit) && Some(commit) in s.tips
      ensures !ok ==> s.pc == Failed
      ensures 1 <= |sent| <= 2 && s.pushes == |sent| && (|sent| == 2 ==> IsTransient(sent[0]))
      ensures
        var last := sent[|sent| - 1];
        && (ok <==> Succeeds(last) || (IsTransient(last) && seen))
        && (!ok && IsTransient(last) ==> |sent| == 2)
    {
      sent, seen := [], false;
      for attempt := 0 to MAX_GIT_PUSH_ATTEMPTS
        invariant Valid()
        invariant attempt < MAX_GIT_PUSH_ATTEMPTS ==> s.pc == Push(commit, attempt)
        invariant attempt == MAX_GIT_PUSH_ATTEMPTS ==> false
        invariant |sent| == attempt && s.pushes == attempt && forall k | 0 <= k < attempt :: IsTransient(sent[k])
      {
        var answer := SendPush(commit);
        sent := sent + [answer];
        if !answer.Error? && !answer.Lost? {
          return true, sent, false;
        }
        if answer.Error? || !answer.transient {
          return false, sent, false;
        }
        var finalAttempt := attempt + 1 == MAX_GIT_PUSH_ATTEMPTS;
        var landed, first, second := PushLandedAfterFailure(commit);
        if landed {
          return true, sent, true;
        }
        if finalAttempt {
          return false, sent, false;
        }
      }
      assert false;
    }

    // ----- One publication

    method Begin() returns (prepared: Option<Sha>)
      requires Valid() && AtRest(s)
      modifies this
      ensures Valid() && prepared == s.receipt && s.pc == CheckBranch(prepared)
    {
      prepared := s.receipt;
      assert Run(s, req, [Restart]) == Apply(s, req, Restart) by {
        assert [Restart][1..] == [];
      }
      Happen([Restart]);
    }

    /** HEAD must name the publication branch. */
    method IsOnBranch(prepared: Option<Sha>) returns (ok: bool)
      requires Valid() && s.pc == CheckBranch(prepared)
      modifies this
      ensures Valid() && s.pc == if ok then ReadHead(prepared) else Failed
    {
      Wait();
      var error: bool := *;
      ok := !error && s.head == OnBranch(req.branch);
      Step(if error then Error else Fine);
    }

    /** What HEAD is; with nothing recorded it must be the approved parent. */
    method ReadBase(prepared: Option<Sha>) returns (ok: bool, head: Option<Sha>)
      requires Valid() && s.pc == ReadHead(prepared)
      modifies this
      ensures Valid()
      ensures !ok ==> s.pc == Failed
      ensures ok ==> s.pc == if prepared.None? then CompareTrees(req.parent) else VerifyPrepared(prepared.value, head)
      ensures ok && prepared.None? ==> head == Some(req.parent)
    {
      Wait();
      var error: bool := *;
      head := HeadSha(s);
      ok := !error && (prepared.None? ==> head == Some(req.parent));
      Step(if error then Error else Fine);
    }

    /** There must be a change, and it must be in scope. `at` is the state that the checks saw. */
    method IsPublishable() returns (ok: bool, ghost at: State)
      requires Valid() && s.pc == CompareTrees(req.parent)
      modifies this
      ensures Valid() && s.pc == if ok then CreateCommit(req.parent) else Failed
      ensures ok ==> HasChange(at, req) && req.inScope
      ensures (s.receipt, s.log) == old((s.receipt, s.log))
    {
      Wait();
      at := s;
      var error: bool := *;
      ok := !error && HasChange(s, req) && req.inScope;
      Step(if error then Error else Fine);
    }

    method CommitTree() returns (commit: Option<Sha>)
      requires Valid() && s.pc == CreateCommit(req.parent)
      modifies this
      ensures Valid() && s.pc == if commit.Some? then VerifyNew(commit.value, req.parent) else Failed
      ensures (s.receipt, s.log) == old((s.receipt, s.log))
    {
      Wait();
      var answer: Answer := *;
      var made := answer.NewCommit? && CanName(s, answer.sha, Commit(req.tree, [req.parent]));
      commit := if made then Some(answer.sha) else None;
      Step(answer);
    }

    method VerifyCommitShape(commit: Sha) returns (ok: bool)
      requires Valid() && s.pc == VerifyNew(commit, req.parent)
      modifies this
      ensures Valid() && s.pc == if ok then Record(commit, req.parent) else Failed
      ensures ok ==> HasShape(s, req, commit)
      ensures (s.receipt, s.log) == old((s.receipt, s.log))
    {
      Wait();
      var error: bool := *;
      ok := !error && HasShape(s, req, commit);
      Step(if error then Error else Fine);
    }

    method RecordCommit(commit: Sha) returns (ok: bool)
      requires Valid() && s.pc == Record(commit, req.parent)
      modifies this
      ensures Valid() && s.pc == if ok then MoveBranch(commit, req.parent) else Failed
      ensures ok ==> s.receipt == Some(commit) && s.log == old(s.log) + [Recorded(commit)]
    {
      Wait();
      var answer: Answer := *;
      ok := !answer.Error? && !answer.Lost? && (s.receipt.None? || s.receipt == Some(commit));
      Step(answer);
    }

    /** A recorded commit is verified again, and HEAD may only be the parent or the commit. */
    method VerifyReceipt(commit: Sha, head: Option<Sha>) returns (ok: bool)
      requires Valid() && s.pc == VerifyPrepared(commit, head)
      modifies this
      ensures Valid()
      ensures if ok then head.Some? && s.pc == MoveBranch(commit, head.value) else s.pc == Failed
      ensures ok ==> HasShape(s, req, commit) && head in {Some(req.parent), Some(commit)}
      ensures (s.receipt, s.log) == old((s.receipt, s.log))
    {
      Wait();
      var error: bool := *;
      ok := !error && HasShape(s, req, commit) && head in {Some(req.parent), Some(commit)};
      Step(if error then Error else Fine);
    }

    /** `at` is the state that the compare-and-swap saw. */
    method UpdateRef(commit: Sha, head: Sha) returns (ok: bool, ghost at: State)
      requires Valid() && s.pc == MoveBranch(commit, head)
      modifies this
      ensures Valid() && s.pc == if ok then CheckRemote(commit) else Failed
      ensures head == commit ==> ok && s.refs == at.refs && s.log == old(s.log)
      ensures ok && head != commit ==>
        && req.branch in at.refs && at.refs[req.branch] == req.parent
        && s.refs == at.refs[req.branch := commit] && s.log == old(s.log) + [Moved(req.parent, commit)]
      ensures !ok && s.refs != at.refs ==>
        req.branch in at.refs && at.refs[req.branch] == req.parent && s.refs == at.refs[req.branch := commit]
    {
      Wait();
      at := s;
      var answer: Answer := *;
      var atParent := req.branch in s.refs && s.refs[req.branch] == req.parent;
      ok := head == commit || (!answer.Error? && !answer.Lost? && atParent);
      Step(answer);
    }

    method PushIfNeeded(commit: Sha) returns (ok: bool)
      requires Valid() && s.pc == CheckRemote(commit)
      modifies this
      ensures Valid() && s.pc == if ok then Done(commit) else Failed
    {
      Wait();
      var error: bool := *;
      var there := s.remote == Some(commit);
      Step(if error then Error else Fine);
      if error {
        return false;
      }
      ok := true;
      if !there {
        ghost var sent, seen;
        ok, sent, seen := PushRef(commit);
      }
    }

    /** A new commit with its receipt: a change, in scope, of the approved shape, recorded before the
      branch can move. `at` is the state that the change was seen in. */
    method PrepareCommit() returns (commit: Option<Sha>, ghost at: State)
      requires Valid() && s.pc == CompareTrees(req.parent)
      modifies this
      ensures Valid() && s.pc == if commit.Some? then MoveBranch(commit.value, req.parent) else Failed
      ensures commit.Some? ==>
        && HasChange(at, req) && req.inScope && HasShape(s, req, commit.value)
        && s.receipt == commit && s.log == old(s.log) + [Recorded(commit.value)]
    {
      var ok;
      commit := None;
      ok, at := IsPublishable();
      if ok {
        commit := CommitTree();
        if commit.Some? {
          ok := VerifyCommitShape(commit.value);
          if ok {
            ok := RecordCommit(commit.value);
          }
          commit := if ok then commit else None;
        }
      }
    }

    /** The commit to publish: the receipt, verified again, or a new one with its receipt. `head` is the
      one value read for HEAD, which is the approved parent or the commit. */
    method ChooseCommit(prepared: Option<Sha>) returns (commit: Option<Sha>, head: Sha)
      requires Valid() && s.pc == ReadHead(prepared) && prepared == s.receipt
      modifies this
      ensures Valid() && s.pc == if commit.Some? then MoveBranch(commit.value, head) else Failed
      ensures commit.Some? ==>
        && HasShape(s, req, commit.value) && s.receipt == commit && head in {req.parent, commit.value}
        && (prepared.Some? ==> commit == prepared)
        && (prepared.None? ==> head == req.parent && req.inScope)
    {
      var ok, seen := ReadBase(prepared);
      head := req.parent;
      commit := None;
      if ok && prepared.None? {
        ghost var at;
        commit, at := PrepareCommit();
      } else if ok {
        ok := VerifyReceipt(prepared.value, seen);
        if ok {
          commit, head := prepared, seen.value;
        }
      }
    }

    method AdvanceAndPush(commit: Sha, head: Sha) returns (ok: bool)
      requires Valid() && s.pc == MoveBranch(commit, head)
      modifies this
      ensures Valid() && s.pc == if ok then Done(commit) else Failed
    {
      ghost var at;
      ok, at := UpdateRef(commit, head);
      if ok {
        ok := PushIfNeeded(commit);
      }
    }

    /** Whatever happens in between, a returned commit is the recorded receipt, is the reviewed tree on
      the approved parent alone, and was on the remote branch during the call. */
    method PublishBoundCommit() returns (published: Option<Sha>)
      requires Valid() && AtRest(s)
      modifies this
      ensures Valid()
      ensures published.Some? ==>
        && s.pc == Done(published.value) && s.receipt == published && published in s.tips
        && published.value in s.commits && s.commits[published.value] == Commit(req.tree, [req.parent])
      ensures published.None? ==> s.pc == Failed
      ensures s.pushes <= 2
    {
      var prepared := Begin();
      var ok := IsOnBranch(prepared);
      published := None;
      if ok {
        var commit, head := ChooseCommit(prepared);
        if commit.Some? {
          ok := AdvanceAndPush(commit.value, head);
          published := if ok then commit else None;
        }
      }
    }
  }
}
