/** `publish_bound_commit`: publish exactly the approved tree on exactly the approved parent.

  The controller is a machine whose steps are its git calls. Between any two of them it can crash,
  and anyone can move refs, change HEAD, add commits or move the remote branch. A push can land and
  still report an error. The receipt is what `record_commit` persisted. */
module Publication {
  import opened Wrappers

  type Sha = string
  type Tree = string

  const MAX_GIT_PUSH_ATTEMPTS: nat := 2

  datatype Commit = Commit(tree: Tree, parents: seq<Sha>)

  datatype Head = OnBranch(name: string) | Detached(sha: Sha)

  /** What the caller of one publication fixes: branch, reviewed tree and approved parent, and with
    them whether the changed paths between the two keep to the protected-path and size rules. */
  datatype Request = Request(branch: string, tree: Tree, parent: Sha, inScope: bool)

  /** Where the controller is: the git call it makes next, with the values it holds. */
  datatype Pc =
    | Idle
    | CheckBranch(prepared: Option<Sha>)
    | ReadHead(prepared: Option<Sha>)
    | CompareTrees(head: Sha)
    | CreateCommit(head: Sha)
    | VerifyNew(commit: Sha, head: Sha)
    | Record(commit: Sha, head: Sha)
    | VerifyPrepared(commit: Sha, seen: Option<Sha>)
    | MoveBranch(commit: Sha, head: Sha)
    | CheckRemote(commit: Sha)
    | Push(commit: Sha, attempt: nat)
    | Reconcile(commit: Sha, attempt: nat, waited: bool)
    | Done(commit: Sha)
    | Failed

  /** What the controller did that lasts: receipts, branch moves and pushes sent. */
  datatype Action = Recorded(commit: Sha) | Moved(from: Sha, to: Sha) | Pushed(commit: Sha)

  datatype State = State(
    commits: map<Sha, Commit>,
    refs: map<string, Sha>,
    head: Head,
    remote: Option<Sha>,
    receipt: Option<Sha>,
    pc: Pc,
    log: seq<Action>,
    tips: set<Option<Sha>>,   // what the remote branch held since the call began
    pushes: nat)              // pushes sent since the call began

  /** What the outside world answers to one call. A lost call reports an error and can have landed. */
  datatype Answer =
    | Fine
    | Error
    | NewCommit(sha: Sha)
    | Lost(landed: bool, transient: bool)

  datatype Event =
    | Restart
    | Crash
    | Step(answer: Answer)
    | OutsideRef(name: string, target: Option<Sha>)
    | OutsideHead(head: Head)
    | OutsideCommit(sha: Sha, commit: Commit)
    | OutsideRemote(tip: Option<Sha>)

  function HeadSha(s: State): Option<Sha> {
    match s.head
    case Detached(sha) => Some(sha)
    case OnBranch(name) => if name in s.refs then Some(s.refs[name]) else None
  }

  /** The commit is the approved tree on the approved parent and nothing else. */
  predicate HasShape(s: State, req: Request, commit: Sha) {
    commit in s.commits && s.commits[commit] == Commit(req.tree, [req.parent])
  }

  function SetRemote(s: State, tip: Option<Sha>): State {
    s.(remote := tip, tips := s.tips + {tip})
  }

  /** Objects are named by their content: a new name is free or already holds the same commit. */
  predicate CanName(s: State, sha: Sha, commit: Commit) {
    sha in s.commits ==> s.commits[sha] == commit
  }

  /** The calls that only read: what the controller does after the answer. */
  function Look(s: State, req: Request, answer: Answer): Pc {
    match s.pc
    case CheckBranch(prepared) =>
      if answer.Error? || s.head != OnBranch(req.branch) then Failed else ReadHead(prepared)
    case ReadHead(None) =>
      if answer.Error? || HeadSha(s) != Some(req.parent) then Failed else CompareTrees(req.parent)
    case ReadHead(Some(commit)) =>
      if answer.Error? then Failed else VerifyPrepared(commit, HeadSha(s))
    case CompareTrees(head) =>
      if answer.Error? || (req.parent in s.commits && s.commits[req.parent].tree == req.tree) then Failed
      else if !req.inScope then Failed
      else CreateCommit(head)
    case VerifyNew(commit, head) =>
      if answer.Error? || !HasShape(s, req, commit) then Failed else Record(commit, head)
    case VerifyPrepared(commit, seen) =>
      if answer.Error? || !HasShape(s, req, commit) then Failed
      else if seen == Some(req.parent) || seen == Some(commit) then MoveBranch(commit, seen.value)
      else Failed
    case CheckRemote(commit) =>
      if answer.Error? then Failed
      else if s.remote == Some(commit) then Done(commit)
      else Push(commit, 0)
    case Reconcile(commit, attempt, waited) =>
      if !answer.Error? && s.remote == Some(commit) then Done(commit)
      else if !waited then Reconcile(commit, attempt, true)
      else if attempt + 1 == MAX_GIT_PUSH_ATTEMPTS then Failed
      else Push(commit, attempt + 1)
    case _ => s.pc
  }

  function CreateStep(s: State, req: Request, answer: Answer): State
    requires s.pc.CreateCommit?
  {
    var commit := Commit(req.tree, [req.parent]);
    if answer.NewCommit? && CanName(s, answer.sha, commit)
    then s.(commits := s.commits[answer.sha := commit], pc := VerifyNew(answer.sha, s.pc.head))
    else s.(pc := Failed)
  }

  function RecordStep(s: State, answer: Answer): State
    requires s.pc.Record?
  {
    var commit := s.pc.commit;
    if answer.Error? || (answer.Lost? && !answer.landed) || (s.receipt.Some? && s.receipt != Some(commit))
    then s.(pc := Failed)
    else
      s.(receipt := Some(commit), log := s.log + [Recorded(commit)],
         pc := if answer.Lost? then Failed else MoveBranch(commit, s.pc.head))
  }

  /** The compare-and-swap of the branch, which is left out when HEAD was at the commit. */
  function MoveStep(s: State, req: Request, answer: Answer): State
    requires s.pc.MoveBranch?
  {
    var commit := s.pc.commit;
    if s.pc.head == commit then s.(pc := CheckRemote(commit))
    else if answer.Error? || (answer.Lost? && !answer.landed)
            || req.branch !in s.refs || s.refs[req.branch] != req.parent then s.(pc := Failed)
    else
      s.(refs := s.refs[req.branch := commit], log := s.log + [Moved(req.parent, commit)],
         pc := if answer.Lost? then Failed else CheckRemote(commit))
  }

  function PushStep(s: State, answer: Answer): State
    requires s.pc.Push?
  {
    var Push(commit, attempt) := s.pc;
    var sent := s.(log := s.log + [Pushed(commit)], pushes := s.pushes + 1);
    if answer.Error? then sent.(pc := Failed)
    else if !answer.Lost? then SetRemote(sent, Some(commit)).(pc := Done(commit))
    else
      (if answer.landed then SetRemote(sent, Some(commit)) else sent)
      .(pc := if answer.transient then Reconcile(commit, attempt, false) else Failed)
  }

  function ControllerStep(s: State, req: Request, answer: Answer): State {
    if s.pc.CreateCommit? then CreateStep(s, req, answer)
    else if s.pc.Record? then RecordStep(s, answer)
    else if s.pc.MoveBranch? then MoveStep(s, req, answer)
    else if s.pc.Push? then PushStep(s, answer)
    else s.(pc := Look(s, req, answer))
  }

  predicate AtRest(s: State) {
    s.pc.Idle? || s.pc.Done? || s.pc.Failed?
  }

  /** One event. An event that cannot happen in this state changes nothing. */
  function Apply(s: State, req: Request, e: Event): State {
    match e
    case Restart =>
      if AtRest(s) then s.(pc := CheckBranch(s.receipt), tips := {s.remote}, pushes := 0) else s
    case Crash => s.(pc := Idle)
    case Step(answer) => ControllerStep(s, req, answer)
    case OutsideRef(name, Some(sha)) => s.(refs := s.refs[name := sha])
    case OutsideRef(name, None) => s.(refs := s.refs - {name})
    case OutsideHead(head) => s.(head := head)
    case OutsideCommit(sha, commit) =>
      if CanName(s, sha, commit) then s.(commits := s.commits[sha := commit]) else s
    case OutsideRemote(tip) => SetRemote(s, tip)
  }

  function Run(s: State, req: Request, es: seq<Event>): State
    decreases |es|
  {
    if es == [] then s else Run(Apply(s, req, es[0]), req, es[1..])
  }

  /** Nothing was done yet. A receipt from an earlier life of the controller can be there. */
  predicate Initial(s: State) {
    s.pc.Idle? && s.log == [] && s.pushes == 0 && s.remote in s.tips
  }

  // ----- Safety

  ghost predicate IsBound(s: State, req: Request, commit: Sha) {
    s.receipt == Some(commit) && HasShape(s, req, commit)
  }

  function Subject(a: Action): Sha {
    if a.Moved? then a.to else a.commit
  }

  /** A logged action names the receipt, which has the approved shape; a move starts at the parent. */
  ghost predicate ActionIsBound(s: State, req: Request, a: Action) {
    IsBound(s, req, Subject(a)) && (a.Moved? ==> a.from == req.parent)
  }

  ghost predicate PcIsBound(s: State, req: Request) {
    match s.pc
    case Idle => true
    case Failed => true
    case CheckBranch(prepared) => prepared == s.receipt && s.pushes == 0
    case ReadHead(prepared) => prepared == s.receipt && s.pushes == 0
    case CompareTrees(head) => s.receipt.None? && head == req.parent && s.pushes == 0
    case CreateCommit(head) => s.receipt.None? && head == req.parent && s.pushes == 0
    case VerifyNew(commit, head) => s.receipt.None? && head == req.parent && s.pushes == 0
    case Record(commit, head) =>
      s.receipt.None? && head == req.parent && HasShape(s, req, commit) && s.pushes == 0
    case VerifyPrepared(commit, _) => s.receipt == Some(commit) && s.pushes == 0
    case MoveBranch(commit, _) => IsBound(s, req, commit) && s.pushes == 0
    case CheckRemote(commit) => IsBound(s, req, commit) && s.pushes == 0
    case Push(commit, attempt) =>
      IsBound(s, req, commit) && s.pushes == attempt < MAX_GIT_PUSH_ATTEMPTS
    case Reconcile(commit, attempt, _) =>
      IsBound(s, req, commit) && s.pushes == attempt + 1 <= MAX_GIT_PUSH_ATTEMPTS
    case Done(commit) => IsBound(s, req, commit) && Some(commit) in s.tips
  }

  /** What holds in every reachable state. A call sends at most two pushes; the only receipt is the
    first lasting action; every action names it; and a call that returned saw its commit on the
    remote branch. */
  ghost predicate Safe(s: State, req: Request) {
    && PcIsBound(s, req)
    && (forall a | a in s.log :: ActionIsBound(s, req, a))
    && (forall j | 0 < j < |s.log| :: !s.log[j].Recorded?)
    && (s.receipt.None? ==> s.log == [])
    && s.remote in s.tips
    && s.pushes <= MAX_GIT_PUSH_ATTEMPTS
  }

  /** Objects and a receipt, once there, stay what they are; lasting actions are only added. */
  ghost predicate Extends(s: State, t: State) {
    && s.commits.Keys <= t.commits.Keys
    && (forall c | c in s.commits :: t.commits[c] == s.commits[c])
    && s.log <= t.log
    && (s.receipt.Some? ==>
          && t.receipt == s.receipt
          && forall j | |s.log| <= j < |t.log| :: !t.log[j].Recorded?)
  }

  /** A step that keeps objects and receipt and logs at most one bound action keeps the log bound. */
  lemma LogStaysBound(s: State, t: State, req: Request, added: seq<Action>)
    requires Safe(s, req) && Extends(s, t)
    requires t.log == s.log + added && forall a | a in added :: ActionIsBound(t, req, a)
    ensures forall a | a in t.log :: ActionIsBound(t, req, a)
  {
    forall a | a in t.log
      ensures ActionIsBound(t, req, a)
    {
      if a in s.log {
        assert ActionIsBound(s, req, a);
      }
    }
  }

  lemma LookIsSafe(s: State, req: Request, answer: Answer)
    requires Safe(s, req)
    requires !s.pc.CreateCommit? && !s.pc.Record? && !s.pc.MoveBranch? && !s.pc.Push?
    ensures Safe(s.(pc := Look(s, req, answer)), req)
  {
    LogStaysBound(s, s.(pc := Look(s, req, answer)), req, []);
  }

  lemma CreateIsSafe(s: State, req: Request, answer: Answer)
    requires Safe(s, req) && s.pc.CreateCommit?
    ensures Safe(CreateStep(s, req, answer), req) && Extends(s, CreateStep(s, req, answer))
  {
    LogStaysBound(s, CreateStep(s, req, answer), req, []);
  }

  lemma RecordIsSafe(s: State, req: Request, answer: Answer)
    requires Safe(s, req) && s.pc.Record?
    ensures Safe(RecordStep(s, answer), req) && Extends(s, RecordStep(s, answer))
  {
    var t := RecordStep(s, answer);
    LogStaysBound(s, t, req, if t.log == s.log then [] else [Recorded(s.pc.commit)]);
  }

  lemma MoveIsSafe(s: State, req: Request, answer: Answer)
    requires Safe(s, req) && s.pc.MoveBranch?
    ensures Safe(MoveStep(s, req, answer), req) && Extends(s, MoveStep(s, req, answer))
  {
    var t := MoveStep(s, req, answer);
    LogStaysBound(s, t, req, if t.log == s.log then [] else [Moved(req.parent, s.pc.commit)]);
  }

  lemma PushIsSafe(s: State, req: Request, answer: Answer)
    requires Safe(s, req) && s.pc.Push?
    ensures Safe(PushStep(s, answer), req) && Extends(s, PushStep(s, answer))
  {
    LogStaysBound(s, PushStep(s, answer), req, [Pushed(s.pc.commit)]);
  }

  lemma ControllerStepIsSafe(s: State, req: Request, answer: Answer)
    requires Safe(s, req)
    ensures Safe(ControllerStep(s, req, answer), req)
    ensures Extends(s, ControllerStep(s, req, answer))
  {
    if s.pc.CreateCommit? {
      CreateIsSafe(s, req, answer);
    } else if s.pc.Record? {
      RecordIsSafe(s, req, answer);
    } else if s.pc.MoveBranch? {
      MoveIsSafe(s, req, answer);
    } else if s.pc.Push? {
      PushIsSafe(s, req, answer);
    } else {
      LookIsSafe(s, req, answer);
    }
  }

  lemma OutsideIsSafe(s: State, req: Request, e: Event)
    requires Safe(s, req) && !e.Step? && !e.OutsideCommit?
    ensures Safe(Apply(s, req, e), req) && Extends(s, Apply(s, req, e))
  {
    LogStaysBound(s, Apply(s, req, e), req, []);
  }

  lemma OutsideCommitIsSafe(s: State, req: Request, sha: Sha, commit: Commit)
    requires Safe(s, req) && CanName(s, sha, commit)
    ensures
      var t := s.(commits := s.commits[sha := commit]);
      Safe(t, req) && Extends(s, t)
  {
    LogStaysBound(s, s.(commits := s.commits[sha := commit]), req, []);
  }

  lemma EventIsSafe(s: State, req: Request, e: Event)
    requires Safe(s, req)
    ensures Safe(Apply(s, req, e), req)
    ensures Extends(s, Apply(s, req, e))
  {
    if e.Step? {
      ControllerStepIsSafe(s, req, e.answer);
    } else if e.OutsideCommit? {
      if CanName(s, e.sha, e.commit) {
        OutsideCommitIsSafe(s, req, e.sha, e.commit);
      }
    } else {
      OutsideIsSafe(s, req, e);
    }
  }

  lemma {:induction false} RunIsSafe(s: State, req: Request, es: seq<Event>)
    requires Safe(s, req)
    ensures Safe(Run(s, req, es), req)
    ensures Extends(s, Run(s, req, es))
    decreases |es|
  {
    if es != [] {
      EventIsSafe(s, req, es[0]);
      RunIsSafe(Apply(s, req, es[0]), req, es[1..]);
    }
  }

  /** In every interleaving with crashes, lost responses and outside changes, from any start: every
    branch move and every push is of the recorded receipt, which is the reviewed tree on the approved
    parent alone; at most one commit is ever recorded, and none when a receipt was there; a call
    sends at most two pushes; and a call that returns saw its commit on the remote branch. */
  lemma EveryRunPublishesOnlyTheReceipt(s: State, req: Request, es: seq<Event>)
    requires Initial(s)
    ensures
      var t := Run(s, req, es);
      && (forall a | a in t.log :: t.receipt == Some(Subject(a)))
      && (forall a | a in t.log :: a.Moved? ==> a.from == req.parent)
      && (t.log != [] ==>
            && t.receipt.Some? && t.receipt.value in t.commits
            && t.commits[t.receipt.value].tree == req.tree && t.commits[t.receipt.value].parents == [req.parent])
      && (forall j | 0 < j < |t.log| :: !t.log[j].Recorded?)
      && (s.receipt.Some? ==> forall a | a in t.log :: !a.Recorded?)
      && t.pushes <= 2
      && (t.pc.Done? ==> t.receipt == Some(t.pc.commit) && Some(t.pc.commit) in t.tips)
  {
    RunIsSafe(s, req, es);
    var t := Run(s, req, es);
    if t.log != [] {
      assert ActionIsBound(t, req, t.log[0]);
    }
  }

  /** A receipt, once there, is refused any other, whatever state the controller is in: from any state at
    all, and in any run, it stays. */
  lemma {:induction false} ReceiptIsNeverReplaced(s: State, req: Request, es: seq<Event>)
    requires s.receipt.Some?
    ensures Run(s, req, es).receipt == s.receipt
    decreases |es|
  {
    if es != [] {
      EventKeepsReceipt(s, req, es[0]);
      ReceiptIsNeverReplaced(Apply(s, req, es[0]), req, es[1..]);
    }
  }

  lemma EventKeepsReceipt(s: State, req: Request, e: Event)
    requires s.receipt.Some?
    ensures Apply(s, req, e).receipt == s.receipt
  {
  }

  /** All that a controller step can change: the publication branch, by compare-and-swap from the
    parent to a receipt recorded before the step; the remote branch, to that receipt; a new commit of
    the approved shape; and the receipt, from none to one of the approved shape. */
  ghost predicate TouchesOnlyTheReceipt(s: State, t: State, req: Request) {
    && (t.refs != s.refs ==>
          && s.receipt.Some? && HasShape(s, req, s.receipt.value)
          && req.branch in s.refs && s.refs[req.branch] == req.parent
          && t.refs == s.refs[req.branch := s.receipt.value])
    && (t.remote != s.remote ==> s.receipt.Some? && t.remote == s.receipt && HasShape(s, req, s.receipt.value))
    && t.head == s.head
    && (forall c | c in t.commits && c !in s.commits :: t.commits[c] == Commit(req.tree, [req.parent]))
    && (t.receipt != s.receipt ==> s.receipt.None? && t.receipt.Some? && HasShape(t, req, t.receipt.value))
    && (t.log == s.log ==> (t.refs, t.remote, t.receipt) == (s.refs, s.remote, s.receipt))
  }

  lemma MoveTouches(s: State, req: Request, answer: Answer)
    requires Safe(s, req) && s.pc.MoveBranch?
    ensures TouchesOnlyTheReceipt(s, MoveStep(s, req, answer), req)
  {
  }

  lemma PushTouches(s: State, req: Request, answer: Answer)
    requires Safe(s, req) && s.pc.Push?
    ensures TouchesOnlyTheReceipt(s, PushStep(s, answer), req)
  {
  }

  lemma CreateOrRecordTouches(s: State, req: Request, answer: Answer)
    requires Safe(s, req) && (s.pc.CreateCommit? || s.pc.Record?)
    ensures TouchesOnlyTheReceipt(s, ControllerStep(s, req, answer), req)
  {
  }

  lemma ControllerTouchesOnlyTheReceipt(s: State, req: Request, answer: Answer)
    requires Safe(s, req)
    ensures TouchesOnlyTheReceipt(s, ControllerStep(s, req, answer), req)
  {
    if s.pc.CreateCommit? || s.pc.Record? {
      CreateOrRecordTouches(s, req, answer);
    } else if s.pc.MoveBranch? {
      MoveTouches(s, req, answer);
    } else if s.pc.Push? {
      PushTouches(s, req, answer);
    } else {
      var t := ControllerStep(s, req, answer);
      assert t == s.(pc := t.pc);
    }
  }

  // ----- Refusals

  /** HEAD is the commit that it names itself, or that its branch is at. */
  lemma HeadIs(s: State, sha: Sha)
    ensures HeadSha(s) == Some(sha) <==>
      || s.head == Detached(sha)
      || exists name | name in s.refs :: s.head == OnBranch(name) && s.refs[name] == sha
  {
  }

  /** Reasons not to publish. An obstacle stands in the way of a call while it holds. */
  datatype Obstacle = OffBranch | OffBase | NothingToPublish | OutOfScope

  predicate Blocks(s: State, req: Request, o: Obstacle) {
    match o
    case OffBranch => s.head != OnBranch(req.branch)
    case OffBase => HeadSha(s) != Some(req.parent) && (s.receipt.None? || HeadSha(s) != s.receipt)
    case NothingToPublish =>
      s.receipt.None? && req.parent in s.commits && s.commits[req.parent].tree == req.tree
    case OutOfScope => s.receipt.None? && !req.inScope
  }

  predicate BlocksThroughout(s: State, req: Request, es: seq<Event>, o: Obstacle)
    decreases |es|
  {
    Blocks(s, req, o) && (es != [] ==> BlocksThroughout(Apply(s, req, es[0]), req, es[1..], o))
  }

  /** How far a call gets against an obstacle. */
  predicate IsHeldAt(pc: Pc, req: Request, o: Obstacle) {
    || pc.Idle? || pc.Failed? || pc.Done? || pc.CheckBranch?
    || (!o.OffBranch? && pc.ReadHead?)
    || (o.OffBase? && pc.VerifyPrepared? && pc.seen !in {Some(req.parent), Some(pc.commit)})
    || ((o.NothingToPublish? || o.OutOfScope?) && pc.CompareTrees?)
  }

  lemma EventIsHeld(s: State, req: Request, e: Event, o: Obstacle)
    requires Safe(s, req) && IsHeldAt(s.pc, req, o) && Blocks(s, req, o)
    ensures
      var t := Apply(s, req, e);
      t.log == s.log && t.receipt == s.receipt && IsHeldAt(t.pc, req, o)
  {
  }

  /** While HEAD is off the publication branch, or off both the approved parent and the receipt, or,
    with no receipt, the change is empty or out of scope, no run records, moves or pushes anything. */
  lemma {:induction false} BlockedRunDoesNothing(s: State, req: Request, es: seq<Event>, o: Obstacle)
    requires Safe(s, req) && IsHeldAt(s.pc, req, o) && BlocksThroughout(s, req, es, o)
    ensures Run(s, req, es).log == s.log && Run(s, req, es).receipt == s.receipt
    decreases |es|
  {
    if es != [] {
      EventIsSafe(s, req, es[0]);
      EventIsHeld(s, req, es[0], o);
      BlockedRunDoesNothing(Apply(s, req, es[0]), req, es[1..], o);
    }
  }

  /** A git call that fails for good ends the call, and leaves refs, remote branch, receipt and objects alone.
    Only a look after a lost push counts as not seen instead; and with HEAD at the commit, the branch move
    makes no call. */
  lemma ErrorsFail(s: State, req: Request)
    requires !AtRest(s) && !s.pc.Reconcile? && !(s.pc.MoveBranch? && s.pc.head == s.pc.commit)
    ensures
      var t := ControllerStep(s, req, Error);
      && t.pc == Failed
      && (t.refs, t.remote, t.receipt, t.commits, t.head) == (s.refs, s.remote, s.receipt, s.commits, s.head)
      && (!s.pc.Push? ==> t.log == s.log)
  {
  }

  /** What a call that writes leaves: all of its effect, or none, and the controller goes on only when it knows
    that the effect is there. */
  predicate Settles(s: State, t: State, effect: State, happens: bool, known: bool, next: Pc) {
    t == (if happens then effect else s).(pc := if happens && known then next else Failed)
  }

  lemma CreateSettles(s: State, req: Request, answer: Answer)
    requires s.pc.CreateCommit?
    ensures
      var t, made := ControllerStep(s, req, answer), Commit(req.tree, [req.parent]);
      if answer.NewCommit? && (answer.sha !in s.commits || s.commits[answer.sha] == made)
      then t == s.(commits := s.commits[answer.sha := made], pc := VerifyNew(answer.sha, s.pc.head))
      else t == s.(pc := Failed)
  {
  }

  /** The receipt is stored, unless the call fails without storing it or another receipt is there. */
  lemma RecordSettles(s: State, req: Request, answer: Answer)
    requires s.pc.Record?
    ensures
      var commit := s.pc.commit;
      var isFree := s.receipt == None || s.receipt == Some(commit);
      var happens := isFree && answer != Error && (answer.Lost? ==> answer.landed);
      Settles(s, ControllerStep(s, req, answer), s.(receipt := Some(commit), log := s.log + [Recorded(commit)]),
              happens, !answer.Lost?, MoveBranch(commit, s.pc.head))
  {
  }

  /** The branch moves, unless HEAD was at the commit, the call fails without moving it, or it is not at the
    approved parent. */
  lemma MoveSettles(s: State, req: Request, answer: Answer)
    requires s.pc.MoveBranch?
    ensures
      var t, commit := ControllerStep(s, req, answer), s.pc.commit;
      if s.pc.head == commit then t == s.(pc := CheckRemote(commit))
      else
        var atParent := req.branch in s.refs && s.refs[req.branch] == req.parent;
        var happens := atParent && answer != Error && (answer.Lost? ==> answer.landed);
        Settles(s, t, s.(refs := s.refs[req.branch := commit], log := s.log + [Moved(req.parent, commit)]),
                happens, !answer.Lost?, CheckRemote(commit))
  {
  }

  /** The remote branch is at the commit after a push that succeeds or landed, and untouched after any other. */
  lemma PushSettles(s: State, req: Request, answer: Answer)
    requires s.pc.Push?
    ensures
      var t := ControllerStep(s, req, answer);
      var lands := answer != Error && (answer.Lost? ==> answer.landed);
      && t.remote == (if lands then Some(s.pc.commit) else s.remote)
      && t.tips == (if lands then s.tips + {Some(s.pc.commit)} else s.tips)
      && t.log == s.log + [Pushed(s.pc.commit)]
      && (t.commits, t.refs, t.head, t.receipt) == (s.commits, s.refs, s.head, s.receipt)
  {
  }

  // ----- The push loop

  predicate IsOutside(e: Event) {
    !e.Restart? && !e.Crash? && !e.Step?
  }

  lemma {:induction false} OutsideKeepsPc(s: State, req: Request, es: seq<Event>)
    requires forall e | e in es :: IsOutside(e)
    ensures
      var t := Run(s, req, es);
      && (t.pc, t.receipt, t.log, t.pushes) == (s.pc, s.receipt, s.log, s.pushes)
      && s.tips <= t.tips
    decreases |es|
  {
    if es != [] {
      assert IsOutside(es[0]);
      OutsideKeepsPc(Apply(s, req, es[0]), req, es[1..]);
    }
  }

  /** A git call: what happens outside before it, and its answer. */
  datatype Call = Call(outside: seq<Event>, answer: Answer)

  /** The state that the call meets. */
  function Met(s: State, req: Request, call: Call): State {
    Run(s, req, call.outside)
  }

  predicate Succeeds(answer: Answer) {
    !answer.Error? && !answer.Lost?
  }

  predicate IsTransient(answer: Answer) {
    answer.Lost? && answer.transient
  }

  /** The call is a look at the remote branch that does not fail and finds the commit there. */
  predicate Sees(s: State, req: Request, call: Call, commit: Sha) {
    !call.answer.Error? && Met(s, req, call).remote == Some(commit)
  }

  ghost predicate AreCalls(req: Request, states: seq<State>, calls: seq<Call>) {
    && |states| == |calls| + 1
    && forall k | 0 <= k < |calls| ::
      && (forall e | e in calls[k].outside :: IsOutside(e))
      && states[k + 1] == Run(states[k], req, calls[k].outside + [Step(calls[k].answer)])
  }

  lemma CallIsStep(req: Request, states: seq<State>, calls: seq<Call>, k: nat)
    requires AreCalls(req, states, calls) && k < |calls|
    ensures states[k + 1] == ControllerStep(Met(states[k], req, calls[k]), req, calls[k].answer)
    ensures Met(states[k], req, calls[k]).pc == states[k].pc
    ensures Met(states[k], req, calls[k]).pushes == states[k].pushes
  {
    var met, step := Met(states[k], req, calls[k]), Step(calls[k].answer);
    OutsideKeepsPc(states[k], req, calls[k].outside);
    RunConcat(states[k], req, calls[k].outside, [step]);
    RunUnfolds(met, req, [step], [Apply(met, req, step)]);
  }

  lemma PushIsSent(req: Request, commit: Sha, attempt: nat, s: State, call: Call, t: State)
    requires AreCalls(req, [s, t], [call]) && s.pc == Push(commit, attempt)
    ensures t.pushes == s.pushes + 1
    ensures t.pc == if Succeeds(call.answer) then Done(commit)
                    else if IsTransient(call.answer) then Reconcile(commit, attempt, false) else Failed
  {
    CallIsStep(req, [s, t], [call], 0);
  }

  lemma LookIsTaken(req: Request, commit: Sha, attempt: nat, waited: bool, s: State, call: Call, t: State)
    requires AreCalls(req, [s, t], [call]) && s.pc == Reconcile(commit, attempt, waited) && attempt < 2
    ensures t.pushes == s.pushes
    ensures t.pc == if Sees(s, req, call, commit) then Done(commit)
                    else if !waited then Reconcile(commit, attempt, true)
                    else if attempt == 0 then Push(commit, 1) else Failed
  {
    CallIsStep(req, [s, t], [call], 0);
  }

  lemma RestIsKept(req: Request, s: State, call: Call, t: State)
    requires AreCalls(req, [s, t], [call]) && (s.pc.Done? || s.pc.Failed?)
    ensures t.pc == s.pc && t.pushes == s.pushes
  {
    CallIsStep(req, [s, t], [call], 0);
  }

  lemma CallAlone(req: Request, states: seq<State>, calls: seq<Call>, k: nat)
    requires AreCalls(req, states, calls) && k < |calls|
    ensures AreCalls(req, [states[k], states[k + 1]], [calls[k]])
  {
  }

  /** One more call, which is a look or changes nothing. */
  lemma LookOrRest(req: Request, commit: Sha, attempt: nat, waited: bool, s: State, call: Call, t: State)
    requires AreCalls(req, [s, t], [call]) && attempt < 2
    requires s.pc in {Reconcile(commit, attempt, waited), Done(commit), Failed}
    ensures t.pushes == s.pushes
    ensures
      if s.pc != Reconcile(commit, attempt, waited) then t.pc == s.pc
      else t.pc == if Sees(s, req, call, commit) then Done(commit)
                   else if !waited then Reconcile(commit, attempt, true)
                   else if attempt == 0 then Push(commit, 1) else Failed
  {
    if s.pc.Reconcile? {
      LookIsTaken(req, commit, attempt, waited, s, call, t);
    } else {
      RestIsKept(req, s, call, t);
    }
  }

  /** A push and, if it was lost, up to two looks. */
  lemma OnePush(req: Request, commit: Sha, attempt: nat, states: seq<State>, calls: seq<Call>)
    requires AreCalls(req, states, calls) && |calls| == 3 && states[0].pc == Push(commit, attempt) && attempt < 2
    ensures
      var lost := IsTransient(calls[0].answer);
      var seen := Sees(states[1], req, calls[1], commit) || Sees(states[2], req, calls[2], commit);
      && states[3].pushes == states[0].pushes + 1
      && states[3].pc ==
        if Succeeds(calls[0].answer) || (lost && seen) then Done(commit)
        else if lost && attempt == 0 then Push(commit, 1)
        else Failed
  {
    CallAlone(req, states, calls, 0);
    CallAlone(req, states, calls, 1);
    CallAlone(req, states, calls, 2);
    PushIsSent(req, commit, attempt, states[0], calls[0], states[1]);
    LookOrRest(req, commit, attempt, false, states[1], calls[1], states[2]);
    LookOrRest(req, commit, attempt, true, states[2], calls[2], states[3]);
  }

  lemma RestStays(req: Request, states: seq<State>, calls: seq<Call>)
    requires AreCalls(req, states, calls) && |calls| == 3 && (states[0].pc.Done? || states[0].pc.Failed?)
    ensures states[3].pc == states[0].pc && states[3].pushes == states[0].pushes
  {
    CallAlone(req, states, calls, 0);
    CallAlone(req, states, calls, 1);
    CallAlone(req, states, calls, 2);
    RestIsKept(req, states[0], calls[0], states[1]);
    RestIsKept(req, states[1], calls[1], states[2]);
    RestIsKept(req, states[2], calls[2], states[3]);
  }

  /** How the push loop ends, with anything outside before each call: a push that is lost in a way that can
    be tried again, and that neither look finds, is sent a second time, and never a third time. The calls
    after the end change nothing. */
  lemma PushLoopEnds(req: Request, commit: Sha, states: seq<State>, calls: seq<Call>)
    requires AreCalls(req, states, calls) && |calls| == 6 && states[0].pc == Push(commit, 0)
    ensures
      var first, second := calls[0].answer, calls[3].answer;
      var seen := Sees(states[1], req, calls[1], commit) || Sees(states[2], req, calls[2], commit);
      var seenThen := Sees(states[4], req, calls[4], commit) || Sees(states[5], req, calls[5], commit);
      var again := IsTransient(first) && !seen;
      && states[6].pushes == states[0].pushes + (if again then 2 else 1)
      && (states[6].pc == Done(commit) <==>
            || Succeeds(first) || (IsTransient(first) && seen)
            || (again && (Succeeds(second) || (IsTransient(second) && seenThen))))
      && (states[6].pc != Done(commit) ==> states[6].pc == Failed)
  {
    assert AreCalls(req, states[..4], calls[..3]) && AreCalls(req, states[3..], calls[3..]);
    OnePush(req, commit, 0, states[..4], calls[..3]);
    if states[3].pc == Push(commit, 1) {
      OnePush(req, commit, 1, states[3..], calls[3..]);
    } else {
      RestStays(req, states[3..], calls[3..]);
    }
  }

  /** The state after a first push that is lost, did not land, and is not seen by either look. */
  lemma PushedInVain(s: State, req: Request, commit: Sha, looks: seq<Answer>, states: seq<State>)
    requires s.pc == Push(commit, 0) && s.remote != Some(commit) && |looks| == 2
    requires forall k | 0 <= k < 2 :: looks[k] in {Fine, Error}
    requires |states| == 3 && states[0] == Apply(s, req, Step(Lost(false, true)))
    requires forall k | 0 <= k < 2 :: states[k + 1] == Apply(states[k], req, Step(looks[k]))
    ensures states[2] == s.(pc := Push(commit, 1), log := s.log + [Pushed(commit)], pushes := s.pushes + 1)
  {
    var sent := s.(log := s.log + [Pushed(commit)], pushes := s.pushes + 1);
    assert states[0] == sent.(pc := Reconcile(commit, 0, false));
    assert states[1] == sent.(pc := Reconcile(commit, 0, true));
  }

  /** With nothing outside: a second push completes after a first one that did not land. */
  lemma SecondPushCompletes(s: State, req: Request, commit: Sha)
    requires s.pc == Push(commit, 0) && s.remote != Some(commit)
    ensures
      var t := Run(s, req, [Step(Lost(false, true)), Step(Fine), Step(Fine), Step(Fine)]);
      t.pc == Done(commit) && t.remote == Some(commit) && t.log == s.log + [Pushed(commit), Pushed(commit)]
  {
    var s1 := Apply(s, req, Step(Lost(false, true)));
    var s2 := Apply(s1, req, Step(Fine));
    var s3 := Apply(s2, req, Step(Fine));
    PushedInVain(s, req, commit, [Fine, Fine], [s1, s2, s3]);
    RunUnfolds(s, req, [Step(Lost(false, true)), Step(Fine), Step(Fine), Step(Fine)],
               [s1, s2, s3, Apply(s3, req, Step(Fine))]);
  }

  /** A lost push that landed is recognised by either look. */
  lemma LandedPushIsSeen(s: State, req: Request, commit: Sha)
    requires s.pc == Push(commit, 0)
    ensures Run(s, req, [Step(Lost(true, true)), Step(Fine)]).pc == Done(commit)
    ensures Run(s, req, [Step(Lost(true, true)), Step(Error), Step(Fine)]).pc == Done(commit)
  {
    var t1 := Apply(s, req, Step(Lost(true, true)));
    var t2 := Apply(t1, req, Step(Error));
    RunUnfolds(s, req, [Step(Lost(true, true)), Step(Fine)], [t1, Apply(t1, req, Step(Fine))]);
    RunUnfolds(s, req, [Step(Lost(true, true)), Step(Error), Step(Fine)], [t1, t2, Apply(t2, req, Step(Fine))]);
  }

  // ----- A first call

  function Prepare(sha: Sha): seq<Event> {
    [Restart, Step(Fine), Step(Fine), Step(Fine), Step(NewCommit(sha)), Step(Fine), Step(Fine)]
  }

  const PUBLISH: seq<Event> := [Step(Fine), Step(Fine), Step(Fine)]

  /** HEAD is on the publication branch at the approved parent, and there is a change in scope. */
  predicate IsReady(s: State, req: Request) {
    && s.receipt.None? && s.head == OnBranch(req.branch)
    && req.branch in s.refs && s.refs[req.branch] == req.parent
    && !(req.parent in s.commits && s.commits[req.parent].tree == req.tree) && req.inScope
  }

  /** The look at the workspace, the new commit and its receipt: seven steps. */
  lemma ReceiptIsRecorded(s: State, req: Request, sha: Sha, states: seq<State>)
    requires AtRest(s) && IsReady(s, req) && sha != req.parent && sha !in s.commits
    requires |states| == 7 && states[0] == Apply(s, req, Restart)
    requires forall i | 0 < i < 7 && i != 4 :: states[i] == Apply(states[i - 1], req, Step(Fine))
    requires states[4] == Apply(states[3], req, Step(NewCommit(sha)))
    ensures
      states[6] == s.(commits := s.commits[sha := Commit(req.tree, [req.parent])], receipt := Some(sha),
                      log := s.log + [Recorded(sha)], pc := MoveBranch(sha, req.parent),
                      tips := {s.remote}, pushes := 0)
  {
    var s1 := states[0];
    assert s1 == s.(pc := CheckBranch(None), tips := {s.remote}, pushes := 0);
    assert states[1] == s1.(pc := ReadHead(None));
    assert states[2] == s1.(pc := CompareTrees(req.parent));
    assert states[3] == s1.(pc := CreateCommit(req.parent));
    var s5 := s1.(commits := s.commits[sha := Commit(req.tree, [req.parent])]);
    assert states[4] == s5.(pc := VerifyNew(sha, req.parent));
    assert states[5] == s5.(pc := Record(sha, req.parent));
    assert states[6] == RecordStep(states[5], Fine);
  }

  lemma PrepareRuns(s: State, req: Request, sha: Sha)
    requires AtRest(s) && IsReady(s, req) && sha != req.parent && sha !in s.commits
    ensures
      Run(s, req, Prepare(sha)) ==
        s.(commits := s.commits[sha := Commit(req.tree, [req.parent])], receipt := Some(sha),
           log := s.log + [Recorded(sha)], pc := MoveBranch(sha, req.parent), tips := {s.remote}, pushes := 0)
  {
    var s1 := Apply(s, req, Restart);
    var s2 := Apply(s1, req, Step(Fine));
    var s3 := Apply(s2, req, Step(Fine));
    var s4 := Apply(s3, req, Step(Fine));
    var s5 := Apply(s4, req, Step(NewCommit(sha)));
    var s6 := Apply(s5, req, Step(Fine));
    var s7 := Apply(s6, req, Step(Fine));
    RunUnfolds(s, req, Prepare(sha), [s1, s2, s3, s4, s5, s6, s7]);
    ReceiptIsRecorded(s, req, sha, [s1, s2, s3, s4, s5, s6, s7]);
  }

  lemma PublishRuns(s: State, req: Request, sha: Sha)
    requires s.pc == MoveBranch(sha, req.parent) && sha != req.parent && s.remote != Some(sha)
    requires req.branch in s.refs && s.refs[req.branch] == req.parent
    ensures
      var t := Run(s, req, PUBLISH);
      && t.pc == Done(sha) && t.remote == Some(sha)
      && (t.commits, t.head, t.receipt) == (s.commits, s.head, s.receipt)
      && t.refs == s.refs[req.branch := sha]
      && t.log == s.log + [Moved(req.parent, sha), Pushed(sha)]
  {
    var s1 := Apply(s, req, Step(Fine));
    var s2 := Apply(s1, req, Step(Fine));
    var s3 := Apply(s2, req, Step(Fine));
    RunUnfolds(s, req, PUBLISH, [s1, s2, s3]);
    assert s1 == MoveStep(s, req, Fine);
    assert s2 == s1.(pc := Push(sha, 0));
    assert s3 == PushStep(s2, Fine);
  }

  /** A first call that nothing disturbs records one new commit, moves the branch to it and pushes it,
    in this order. */
  lemma FirstCallCompletes(s: State, req: Request, sha: Sha)
    requires (s.pc.Idle? || s.pc.Done? || s.pc.Failed?) && IsReady(s, req)
    requires sha != req.parent && sha !in s.commits && s.remote != Some(sha)
    ensures
      var t := Run(s, req, Prepare(sha) + PUBLISH);
      && t.pc == Done(sha) && t.receipt == Some(sha) && t.remote == Some(sha)
      && t.commits == s.commits[sha := Commit(req.tree, [req.parent])]
      && t.refs == s.refs[req.branch := sha] && t.head == s.head
      && t.log == s.log + [Recorded(sha), Moved(req.parent, sha), Pushed(sha)]
  {
    RunConcat(s, req, Prepare(sha), PUBLISH);
    PrepareRuns(s, req, sha);
    PublishRuns(Run(s, req, Prepare(sha)), req, sha);
  }

  // ----- Recovery

  /** HEAD is on the publication branch, which is at the parent or already at the commit. */
  predicate Undisturbed(s: State, req: Request, commit: Sha) {
    && s.receipt == Some(commit) && HasShape(s, req, commit)
    && s.head == OnBranch(req.branch)
    && req.branch in s.refs && s.refs[req.branch] in {req.parent, commit}
  }

  const CALL: seq<Event> :=
    [Restart, Step(Fine), Step(Fine), Step(Fine), Step(Fine), Step(Fine), Step(Fine)]

  /** Looking at the remote and pushing if needed: two steps. */
  lemma RemoteSettles(s: State, req: Request, commit: Sha)
    requires s.pc == CheckRemote(commit)
    ensures
      var t := ControllerStep(ControllerStep(s, req, Fine), req, Fine);
      && t.pc == Done(commit) && t.remote == Some(commit)
      && (t.commits, t.refs, t.head, t.receipt) == (s.commits, s.refs, s.head, s.receipt)
      && (s.remote == Some(commit) ==> t.log == s.log)
  {
  }

  /** From the restart to the look at the remote: five steps, and at most the branch moved. */
  lemma BranchSettles(s: State, req: Request, commit: Sha, states: seq<State>)
    requires AtRest(s) && Undisturbed(s, req, commit) && |states| == 5
    requires states[0] == Apply(s, req, Restart)
    requires forall i | 0 < i < 5 :: states[i] == Apply(states[i - 1], req, Step(Fine))
    ensures
      var t := states[4];
      && t.pc == CheckRemote(commit)
      && t.refs == s.refs[req.branch := commit]
      && (t.commits, t.head, t.receipt, t.remote) == (s.commits, s.head, s.receipt, s.remote)
      && (s.refs[req.branch] == commit ==> t.log == s.log)
  {
    var s1 := states[0];
    assert s1 == s.(pc := CheckBranch(Some(commit)), tips := {s.remote}, pushes := 0);
    assert states[1] == s1.(pc := ReadHead(Some(commit)));
    assert states[2] == s1.(pc := VerifyPrepared(commit, Some(s.refs[req.branch])));
    assert states[3] == s1.(pc := MoveBranch(commit, s.refs[req.branch]));
    assert states[4] == MoveStep(states[3], req, Fine);
  }

  /** A call that nothing disturbs ends with branch and remote at the receipt. If they were there
    already, it changes nothing that lasts. */
  lemma CallCompletes(s: State, req: Request, commit: Sha)
    requires (s.pc.Idle? || s.pc.Done? || s.pc.Failed?) && Undisturbed(s, req, commit)
    ensures
      var t := Run(s, req, CALL);
      && t.pc == Done(commit)
      && t.refs == s.refs[req.branch := commit]
      && t.remote == Some(commit)
      && (t.commits, t.head, t.receipt) == (s.commits, s.head, s.receipt)
      && (s.refs[req.branch] == commit && s.remote == Some(commit) ==>
            (t.refs, t.remote, t.log) == (s.refs, s.remote, s.log))
  {
    var s1 := Apply(s, req, Restart);
    var s2 := Apply(s1, req, Step(Fine));
    var s3 := Apply(s2, req, Step(Fine));
    var s4 := Apply(s3, req, Step(Fine));
    var s5 := Apply(s4, req, Step(Fine));
    var s6 := Apply(s5, req, Step(Fine));
    var s7 := Apply(s6, req, Step(Fine));
    RunUnfolds(s, req, CALL, [s1, s2, s3, s4, s5, s6, s7]);
    BranchSettles(s, req, commit, [s1, s2, s3, s4, s5]);
    RemoteSettles(s5, req, commit);
  }

  /** A run is its states one after the other. */
  lemma {:induction false} RunUnfolds(s: State, req: Request, es: seq<Event>, states: seq<State>)
    requires |es| == |states| > 0
    requires states[0] == Apply(s, req, es[0])
    requires forall i | 0 < i < |es| :: states[i] == Apply(states[i - 1], req, es[i])
    ensures Run(s, req, es) == states[|states| - 1]
    decreases |es|
  {
    if |es| > 1 {
      RunUnfolds(states[0], req, es[1..], states[1..]);
    } else {
      assert Run(states[0], req, es[1..]) == states[0];
    }
  }

  lemma {:induction false} RunConcat(s: State, req: Request, es: seq<Event>, fs: seq<Event>)
    ensures Run(s, req, es + fs) == Run(Run(s, req, es), req, fs)
    decreases |es|
  {
    if es == [] {
      assert es + fs == fs;
    } else {
      assert (es + fs)[1..] == es[1..] + fs;
      RunConcat(Apply(s, req, es[0]), req, es[1..], fs);
    }
  }

  /** Crash at any moment of any run: if the run had acted and HEAD and branch are undisturbed, one
    more call ends with branch and remote at the one recorded commit, and a call after that changes
    nothing. */
  lemma CrashAnywhereThenRecover(s: State, req: Request, es: seq<Event>)
    requires Initial(s)
    requires
      var t := Run(s, req, es);
      && t.log != [] && t.head == OnBranch(req.branch) && req.branch in t.refs
      && t.receipt.Some? && t.refs[req.branch] in {req.parent, t.receipt.value}
    ensures
      var t := Run(s, req, es);
      var u := Run(s, req, es + ([Crash] + CALL));
      var v := Run(u, req, CALL);
      && u.pc == v.pc == Done(t.receipt.value)
      && u.refs == t.refs[req.branch := t.receipt.value] && u.remote == t.receipt
      && (v.commits, v.refs, v.head, v.remote, v.receipt, v.log)
           == (u.commits, u.refs, u.head, u.remote, u.receipt, u.log)
  {
    RunIsSafe(s, req, es);
    var t := Run(s, req, es);
    var commit := t.receipt.value;
    assert ActionIsBound(t, req, t.log[0]);
    var crashed := Apply(t, req, Crash);
    RunConcat(s, req, es, [Crash] + CALL);
    assert ([Crash] + CALL)[1..] == CALL;
    assert Run(t, req, [Crash] + CALL) == Run(crashed, req, CALL);
    CallCompletes(crashed, req, commit);
    CallCompletes(Run(crashed, req, CALL), req, commit);
  }
}
