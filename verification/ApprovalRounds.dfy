/** Approving again and again, for any assessment: which paths leave the questions to a human, and which
  never do.

  Nothing here depends on how paths are normalized or assessed, only on what `IsAssessment` says. */
module ApprovalRounds {

  type Path = string

  /** An assessment of fixed changes: the changed paths, which of them are sensitive, how a path is
    normalized, and, for the approved paths, what is found and whether a human is asked. */
  datatype Process = Process(paths: seq<Path>, sensitive: Path -> bool, normal: Path -> Path,
                             found: seq<Path> -> seq<Path>, asks: seq<Path> -> bool)

  /** An approved path counts for what it is once it is normalized. */
  predicate Covers(pr: Process, approved: seq<Path>, p: Path) {
    exists q | q in approved :: pr.normal(q) == p
  }

  predicate IsFixed(pr: Process, p: Path) {
    pr.normal(p) == p
  }

  predicate IsOpen(pr: Process, approved: seq<Path>, p: Path) {
    p in pr.paths && pr.sensitive(p) && !Covers(pr, approved, p)
  }

  /** A human is asked exactly about sensitive paths that are not covered. */
  ghost predicate AsksRightly(pr: Process, approved: seq<Path>) {
    pr.asks(approved) <==> exists p :: IsOpen(pr, approved, p)
  }

  predicate ComesFromPaths(pr: Process, q: Path) {
    q in pr.paths || exists u | u in pr.paths :: q == pr.normal(u)
  }

  /** Those paths are found, and whatever is found is a changed path or one normalized once more. */
  ghost predicate FindsRightly(pr: Process, approved: seq<Path>) {
    && (forall p | IsOpen(pr, approved, p) :: p in pr.found(approved))
    && (forall q | q in pr.found(approved) :: ComesFromPaths(pr, q))
  }

  predicate Shortens(pr: Process, p: Path) {
    !IsFixed(pr, p) ==> |pr.normal(p)| < |p| && |pr.normal(pr.normal(p))| < |p|
  }

  ghost predicate IsAssessment(pr: Process) {
    && (forall approved :: AsksRightly(pr, approved) && FindsRightly(pr, approved))
    && (forall p | p in pr.paths :: Shortens(pr, p))
  }

  /** The approved paths after `k` rounds, each of which approves everything found. */
  function Rounds(pr: Process, k: nat): (approved: seq<Path>) {
    if k == 0 then []
    else
      var before := Rounds(pr, k - 1);
      before + pr.found(before)
  }

  predicate IsStuck(pr: Process, k: nat) {
    pr.asks(Rounds(pr, k))
  }

  // ----- Any paths

  lemma CoversConcat(pr: Process, a: seq<Path>, b: seq<Path>, p: Path)
    ensures Covers(pr, a + b, p) <==> Covers(pr, a, p) || Covers(pr, b, p)
  {
    if q :| q in a && pr.normal(q) == p {
      assert q in a + b;
    }
    if q :| q in b && pr.normal(q) == p {
      assert q in a + b;
    }
  }

  /** A fixed sensitive path is covered after one round, by itself. */
  lemma FixedIsCovered(pr: Process, p: Path, k: nat)
    requires IsAssessment(pr) && p in pr.paths && pr.sensitive(p) && IsFixed(pr, p) && k > 0
    ensures Covers(pr, Rounds(pr, k), p)
  {
    var before := Rounds(pr, k - 1);
    assert FindsRightly(pr, before);
    CoversConcat(pr, before, pr.found(before), p);
    if !Covers(pr, before, p) {
      assert IsOpen(pr, before, p);
    }
  }

  /** Another path among those approved normalizes to `p`. */
  predicate IsReachedBy(pr: Process, approved: seq<Path>, p: Path) {
    exists q | q in approved && q != p :: pr.normal(q) == p
  }

  predicate EachIsCovered(pr: Process, approved: seq<Path>) {
    forall p | p in pr.paths && pr.sensitive(p) :: IsFixed(pr, p) || IsReachedBy(pr, approved, p)
  }

  /** For any paths and any number of rounds: nothing is left to ask exactly when each sensitive path is a
    fixed point or another path approved so far normalizes to it. */
  lemma ClearExactlyWhen(pr: Process, k: nat)
    requires IsAssessment(pr) && k > 0
    ensures !IsStuck(pr, k) <==> EachIsCovered(pr, Rounds(pr, k))
  {
    var approved := Rounds(pr, k);
    assert AsksRightly(pr, approved);
    forall p | p in pr.paths && pr.sensitive(p)
      ensures Covers(pr, approved, p) <==> IsFixed(pr, p) || IsReachedBy(pr, approved, p)
    {
      if IsFixed(pr, p) {
        FixedIsCovered(pr, p, k);
      }
    }
    if !EachIsCovered(pr, approved) {
      var p :| p in pr.paths && pr.sensitive(p) && !IsFixed(pr, p) && !IsReachedBy(pr, approved, p);
      assert IsOpen(pr, approved, p);
    }
  }

  // ----- What no approval covers

  /** Some changed path is `n` after it is normalized once more, or twice. */
  predicate IsReached(pr: Process, n: Path) {
    exists u | u in pr.paths :: pr.normal(u) == n || pr.normal(pr.normal(u)) == n
  }

  lemma {:induction false} UnreachedStaysOpen(pr: Process, n: Path, k: nat)
    requires IsAssessment(pr) && !IsReached(pr, n)
    ensures !Covers(pr, Rounds(pr, k), n)
  {
    if k > 0 {
      var before := Rounds(pr, k - 1);
      UnreachedStaysOpen(pr, n, k - 1);
      assert FindsRightly(pr, before);
      CoversConcat(pr, before, pr.found(before), n);
      forall q | q in pr.found(before)
        ensures pr.normal(q) != n
      {
        assert ComesFromPaths(pr, q);
      }
    }
  }

  /** A sensitive path that no changed path reaches by normalizing again is asked about after any number of
    rounds. */
  lemma UnreachedIsStuck(pr: Process, n: Path, k: nat)
    requires IsAssessment(pr) && n in pr.paths && pr.sensitive(n) && !IsReached(pr, n)
    ensures IsStuck(pr, k)
  {
    UnreachedStaysOpen(pr, n, k);
    assert AsksRightly(pr, Rounds(pr, k)) && IsOpen(pr, Rounds(pr, k), n);
  }

  predicate IsLongestUnfixed(pr: Process, n: Path) {
    && n in pr.paths && !IsFixed(pr, n)
    && forall u | u in pr.paths && !IsFixed(pr, u) :: |u| <= |n|
  }

  /** Normalizing again shortens a path that is no fixed point, so none reaches the longest of them. */
  lemma LongestIsUnreached(pr: Process, n: Path)
    requires IsAssessment(pr) && IsLongestUnfixed(pr, n)
    ensures !IsReached(pr, n)
  {
    forall u | u in pr.paths
      ensures pr.normal(u) != n && pr.normal(pr.normal(u)) != n
    {
      assert Shortens(pr, u);
    }
  }

  predicate AllFixed(pr: Process, us: seq<Path>) {
    forall u | u in us :: IsFixed(pr, u)
  }

  lemma {:induction false} LongestExists(pr: Process, us: seq<Path>) returns (n: Path)
    requires !AllFixed(pr, us)
    ensures n in us && !IsFixed(pr, n) && forall u | u in us && !IsFixed(pr, u) :: |u| <= |n|
    decreases |us|
  {
    var first, rest := us[0], us[1..];
    if AllFixed(pr, rest) {
      n := first;
    } else {
      n := LongestExists(pr, rest);
      if !IsFixed(pr, first) && |first| > |n| {
        n := first;
      }
    }
  }

  // ----- Paths that are all sensitive

  /** Then any number of rounds clears them exactly when all are fixed points. */
  lemma SensitiveClearExactlyWhenFixed(pr: Process, k: nat)
    requires IsAssessment(pr) && (forall u | u in pr.paths :: pr.sensitive(u)) && k > 0
    ensures !IsStuck(pr, k) <==> AllFixed(pr, pr.paths)
  {
    if AllFixed(pr, pr.paths) {
      ClearExactlyWhen(pr, k);
    } else {
      var n := LongestExists(pr, pr.paths);
      LongestIsUnreached(pr, n);
      UnreachedIsStuck(pr, n, k);
    }
  }

  // ----- When only sensitive paths are found

  /** Nothing but open paths is found: no round has an unexpected path to report. */
  ghost predicate FindsOnlyOpen(pr: Process) {
    forall approved, q | q in pr.found(approved) :: IsOpen(pr, approved, q)
  }

  predicate IsReachedBySensitive(pr: Process, p: Path) {
    exists q | q in pr.paths && pr.sensitive(q) && q != p :: pr.normal(q) == p
  }

  lemma {:induction false} ApprovedAreSensitive(pr: Process, k: nat, q: Path)
    requires FindsOnlyOpen(pr) && q in Rounds(pr, k)
    ensures q in pr.paths && pr.sensitive(q)
  {
    var before := Rounds(pr, k - 1);
    if q in before {
      ApprovedAreSensitive(pr, k - 1, q);
    } else {
      assert IsOpen(pr, before, q);
    }
  }

  lemma {:induction false} SensitiveAreApproved(pr: Process, k: nat, q: Path)
    requires IsAssessment(pr) && q in pr.paths && pr.sensitive(q) && k > 0
    ensures q in Rounds(pr, k)
  {
    if k > 1 {
      SensitiveAreApproved(pr, k - 1, q);
    } else {
      assert Rounds(pr, 1) == [] + pr.found([]) && FindsRightly(pr, []) && IsOpen(pr, [], q);
    }
  }

  /** The condition in the changed paths alone: each sensitive one is a fixed point, or another sensitive
    one normalizes to it. More rounds than one do not help. */
  lemma SensitiveOnlyClearExactlyWhen(pr: Process, k: nat)
    requires IsAssessment(pr) && FindsOnlyOpen(pr) && k > 0
    ensures
      !IsStuck(pr, k) <==>
        forall p | p in pr.paths && pr.sensitive(p) :: IsFixed(pr, p) || IsReachedBySensitive(pr, p)
  {
    ClearExactlyWhen(pr, k);
    var approved := Rounds(pr, k);
    forall q
      ensures q in approved <==> q in pr.paths && pr.sensitive(q)
    {
      if q in approved {
        ApprovedAreSensitive(pr, k, q);
      } else if q in pr.paths && pr.sensitive(q) {
        SensitiveAreApproved(pr, k, q);
      }
    }
    assert forall p :: IsReachedBy(pr, approved, p) <==> IsReachedBySensitive(pr, p);
  }
}
