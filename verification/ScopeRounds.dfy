/** Scope approvals given again and again: `ApprovalRounds` for the assessment of `ScopeDrift`. */
module ScopeRounds {
  import opened ScopeDrift
  import A = ApprovalRounds
  import JsonText

  function SensitiveBy(rules: Rules, plan: Plan): Path -> bool {
    (p: Path) => IsSensitive(rules, plan, p)
  }

  function Found(rules: Rules, plan: Plan, changed: seq<Path>, approved: seq<Path>): seq<Path> {
    FindingPaths(Assess(rules, plan, changed, approved))
  }

  predicate AsksForHuman(rules: Rules, plan: Plan, changed: seq<Path>, approved: seq<Path>) {
    Decide(Assess(rules, plan, changed, approved)).NeedsHuman?
  }

  function FoundBy(rules: Rules, plan: Plan, changed: seq<Path>): seq<Path> -> seq<Path> {
    (approved: seq<Path>) => Found(rules, plan, changed, approved)
  }

  function AsksBy(rules: Rules, plan: Plan, changed: seq<Path>): seq<Path> -> bool {
    (approved: seq<Path>) => AsksForHuman(rules, plan, changed, approved)
  }

  /** The assessment of fixed changes by fixed rules and a fixed plan. */
  function Assessing(rules: Rules, plan: Plan, changed: seq<Path>): A.Process {
    A.Process(Unique(changed), SensitiveBy(rules, plan), Normalize, FoundBy(rules, plan, changed),
              AsksBy(rules, plan, changed))
  }

  /** Whether the assessment after `k` rounds, each approving every path found, asks for a human. */
  predicate IsStuckAfter(rules: Rules, plan: Plan, changed: seq<Path>, k: nat) {
    A.IsStuck(Assessing(rules, plan, changed), k)
  }

  // ----- It is an assessment

  lemma CoversIsNormal(pr: A.Process, approved: seq<Path>, p: Path)
    requires pr.normal == Normalize
    ensures A.Covers(pr, approved, p) <==> p in Normals(approved)
  {
  }

  lemma OpenIsChecked(rules: Rules, plan: Plan, changed: seq<Path>, approved: seq<Path>, p: Path)
    ensures A.IsOpen(Assessing(rules, plan, changed), approved, p)
       <==> p in ToCheck(changed, approved) && IsSensitive(rules, plan, p)
  {
    CoversIsNormal(Assessing(rules, plan, changed), approved, p);
    Checked(changed, approved, p);
  }

  lemma HumanIsAsked(rules: Rules, plan: Plan, changed: seq<Path>, approved: seq<Path>)
    ensures A.AsksRightly(Assessing(rules, plan, changed), approved)
  {
    DecisionIs(rules, plan, ToCheck(changed, approved));
    forall p
      ensures A.IsOpen(Assessing(rules, plan, changed), approved, p)
         <==> p in ToCheck(changed, approved) && IsSensitive(rules, plan, p)
    {
      OpenIsChecked(rules, plan, changed, approved, p);
    }
  }

  lemma OpenIsFound(rules: Rules, plan: Plan, changed: seq<Path>, approved: seq<Path>, p: Path)
    requires A.IsOpen(Assessing(rules, plan, changed), approved, p)
    ensures p in Found(rules, plan, changed, approved)
  {
    OpenIsChecked(rules, plan, changed, approved, p);
    FoundPaths(rules, plan, ToCheck(changed, approved), p);
  }

  /** A finding path is a changed path, or, if unexpected, one normalized once more. */
  lemma FoundIsNormal(rules: Rules, plan: Plan, changed: seq<Path>, approved: seq<Path>, q: Path)
    requires q in Found(rules, plan, changed, approved)
    ensures q in Unique(changed) || exists u | u in Unique(changed) :: q == Normalize(u)
  {
    var files := ToCheck(changed, approved);
    Checked(changed, approved, q);
    FoundPaths(rules, plan, files, q);
    if q in Unexpected(plan, files) {
      Selected(Unique(files), Outside(Normals(plan.modules) - {""}), q);
      var f := UniqueIsNormal(files, q);
      Checked(changed, approved, f);
    }
  }

  lemma FindingIsRight(rules: Rules, plan: Plan, changed: seq<Path>, approved: seq<Path>)
    ensures A.FindsRightly(Assessing(rules, plan, changed), approved)
  {
    var pr := Assessing(rules, plan, changed);
    forall p | A.IsOpen(pr, approved, p)
      ensures p in pr.found(approved)
    {
      OpenIsFound(rules, plan, changed, approved, p);
    }
    forall q | q in pr.found(approved)
      ensures A.ComesFromPaths(pr, q)
    {
      FoundIsNormal(rules, plan, changed, approved, q);
    }
  }

  lemma NormalShortens(changed: seq<Path>, u: Path)
    requires u in Unique(changed) && !IsFixed(u)
    ensures |Normalize(u)| < |u| && |Normalize(Normalize(u))| < |u|
  {
    var f := UniqueIsNormal(changed, u);
    FixedExactlyWhenSettled(f);
    FixedExactlyWhenSettled(u);
  }

  /** Everything that `ApprovalRounds` asks for holds of the scope assessment. */
  lemma AssessingIsAssessment(rules: Rules, plan: Plan, changed: seq<Path>)
    ensures A.IsAssessment(Assessing(rules, plan, changed))
  {
    var pr := Assessing(rules, plan, changed);
    forall approved
      ensures A.AsksRightly(pr, approved) && A.FindsRightly(pr, approved)
    {
      HumanIsAsked(rules, plan, changed, approved);
      FindingIsRight(rules, plan, changed, approved);
    }
    forall p | p in pr.paths
      ensures A.Shortens(pr, p)
    {
      if !IsFixed(p) {
        NormalShortens(changed, p);
      }
    }
  }

  lemma SettledIsFixed(changed: seq<Path>, p: Path)
    requires p in Unique(changed)
    ensures IsFixed(p) <==> IsSettled(p)
  {
    var f := UniqueIsNormal(changed, p);
    FixedExactlyWhenSettled(f);
  }

  // ----- Any number of approvals

  /** For any changed paths and any number of approvals: no question to a human is left exactly when each
    sensitive path is settled or another path approved so far normalizes to it. */
  lemma ClearExactlyWhen(rules: Rules, plan: Plan, changed: seq<Path>, k: nat)
    requires k > 0
    ensures
      var pr := Assessing(rules, plan, changed);
      !IsStuckAfter(rules, plan, changed, k) <==>
        forall p | p in Unique(changed) && IsSensitive(rules, plan, p) ::
          IsSettled(p) || A.IsReachedBy(pr, A.Rounds(pr, k), p)
  {
    var pr := Assessing(rules, plan, changed);
    AssessingIsAssessment(rules, plan, changed);
    A.ClearExactlyWhen(pr, k);
    forall p | p in Unique(changed)
      ensures A.IsFixed(pr, p) <==> IsSettled(p)
      ensures pr.sensitive(p) <==> IsSensitive(rules, plan, p)
    {
      SettledIsFixed(changed, p);
    }
  }

  /** A sensitive changed path that no changed path reaches by normalizing again needs a human after any
    number of approvals: what an approval stores is normalized once more, and never is this path. */
  lemma UnsettledIsStuck(rules: Rules, plan: Plan, changed: seq<Path>, n: Path, k: nat)
    requires n in Unique(changed) && IsSensitive(rules, plan, n)
    requires forall u | u in Unique(changed) :: Normalize(u) != n && Normalize(Normalize(u)) != n
    ensures IsStuckAfter(rules, plan, changed, k)
  {
    AssessingIsAssessment(rules, plan, changed);
    A.UnreachedIsStuck(Assessing(rules, plan, changed), n, k);
  }

  lemma LongestUnsettledIsStuck(rules: Rules, plan: Plan, changed: seq<Path>, n: Path, k: nat)
    requires n in Unique(changed) && IsSensitive(rules, plan, n) && !IsFixed(n)
    requires forall u | u in Unique(changed) && !IsFixed(u) :: |u| <= |n|
    ensures IsStuckAfter(rules, plan, changed, k)
  {
    var pr := Assessing(rules, plan, changed);
    AssessingIsAssessment(rules, plan, changed);
    assert A.IsLongestUnfixed(pr, n);
    A.LongestIsUnreached(pr, n);
    A.UnreachedIsStuck(pr, n, k);
  }

  lemma FixedIsNormal(pr: A.Process, us: seq<Path>)
    requires pr.normal == Normalize
    ensures A.AllFixed(pr, us) <==> forall u | u in us :: IsFixed(u)
  {
  }

  lemma AllSensitiveBy(rules: Rules, plan: Plan, changed: seq<Path>)
    requires forall u | u in Unique(changed) :: IsSensitive(rules, plan, u)
    ensures forall u | u in Unique(changed) :: Assessing(rules, plan, changed).sensitive(u)
  {
  }

  /** When all changed paths are sensitive: any number of approvals clears them exactly when all of
    them are fixed points. */
  lemma SensitiveClearExactlyWhenSettled(rules: Rules, plan: Plan, changed: seq<Path>, k: nat)
    requires forall u | u in Unique(changed) :: IsSensitive(rules, plan, u)
    requires k > 0
    ensures !IsStuckAfter(rules, plan, changed, k) <==> forall u | u in Unique(changed) :: IsFixed(u)
  {
    AssessingIsAssessment(rules, plan, changed);
    AllSensitiveBy(rules, plan, changed);
    A.SensitiveClearExactlyWhenFixed(Assessing(rules, plan, changed), k);
    FixedIsNormal(Assessing(rules, plan, changed), Unique(changed));
  }

  lemma UniqueOfOne(path: Path)
    requires Normalize(path) != ""
    ensures Unique([path]) == [Normalize(path)]
  {
    assert [path][..0] == [];
  }

  /** A single sensitive changed file is cleared exactly when its normal form is settled. */
  lemma SingleFileClearsExactlyWhenSettled(rules: Rules, plan: Plan, path: Path, k: nat)
    requires Normalize(path) != "" && IsSensitive(rules, plan, Normalize(path)) && k > 0
    ensures !IsStuckAfter(rules, plan, [path], k) <==> IsSettled(Normalize(path))
  {
    FixedExactlyWhenSettled(path);
    UniqueOfOne(path);
    SensitiveClearExactlyWhenSettled(rules, plan, [path], k);
  }

  // ----- A plan that names no module

  predicate NamesNoModule(plan: Plan) {
    Normals(plan.modules) - {""} == {}
  }

  lemma OnlyOpenIsFound(rules: Rules, plan: Plan, changed: seq<Path>, approved: seq<Path>, q: Path)
    requires NamesNoModule(plan) && q in Found(rules, plan, changed, approved)
    ensures A.IsOpen(Assessing(rules, plan, changed), approved, q)
  {
    FoundPaths(rules, plan, ToCheck(changed, approved), q);
    OpenIsChecked(rules, plan, changed, approved, q);
  }

  /** When the plan names no module, nothing is unexpected, and the condition is one on the changed paths
    alone: each sensitive one is settled, or another sensitive one normalizes to it. */
  lemma NoModuleClearExactlyWhen(rules: Rules, plan: Plan, changed: seq<Path>, k: nat)
    requires NamesNoModule(plan) && k > 0
    ensures
      !IsStuckAfter(rules, plan, changed, k) <==>
        forall p | p in Unique(changed) && IsSensitive(rules, plan, p) ::
          || IsSettled(p)
          || exists q | q in Unique(changed) && IsSensitive(rules, plan, q) && q != p :: Normalize(q) == p
  {
    var pr := Assessing(rules, plan, changed);
    AssessingIsAssessment(rules, plan, changed);
    forall approved, q | q in pr.found(approved)
      ensures A.IsOpen(pr, approved, q)
    {
      OnlyOpenIsFound(rules, plan, changed, approved, q);
    }
    A.SensitiveOnlyClearExactlyWhen(pr, k);
    forall p | p in Unique(changed)
      ensures A.IsFixed(pr, p) <==> IsSettled(p)
    {
      SettledIsFixed(changed, p);
    }
  }

  // ----- Concrete paths

  lemma DotSlashIsNotFixed()
    ensures Normalize("/./a") == "./a" && Normalize("./a") == "a"
  {
    StripEnds("/./a", JsonText.IsSpace);
    StripEnds("./a", JsonText.IsSpace);
    assert ForwardSlashes("/./a") == "/./a" && ForwardSlashes("./a") == "./a";
    assert DropHere("./a") == DropHere("a") == "a";
    assert LStrip("/./a", IsSlash) == LStrip("./a", IsSlash) == "./a";
  }

  /** Normalizing is not idempotent, and the file `/./a`, if sensitive, is stuck. */
  lemma DotSlashIsStuck(rules: Rules, plan: Plan, k: nat)
    requires IsSensitive(rules, plan, "./a")
    ensures Normalize("/./a") == "./a" && Normalize("./a") == "a"
    ensures IsStuckAfter(rules, plan, ["/./a"], k)
  {
    DotSlashIsNotFixed();
    UniqueOfOne("/./a");
    LongestUnsettledIsStuck(rules, plan, ["/./a"], "./a", k);
  }

  lemma DoubleSlashReaches()
    ensures Normalize("/.//./a") == ".//./a" && Normalize(".//./a") == "./a"
  {
    StripEnds("/.//./a", JsonText.IsSpace);
    StripEnds(".//./a", JsonText.IsSpace);
    assert ForwardSlashes("/.//./a") == "/.//./a" && ForwardSlashes(".//./a") == ".//./a";
    assert DropHere(".//./a") == DropHere("/./a") == "/./a";
    assert LStrip("/.//./a", IsSlash) == LStrip(".//./a", IsSlash) == ".//./a";
    assert LStrip("/./a", IsSlash) == LStrip("./a", IsSlash) == "./a";
  }

  lemma UniqueOfTwo(changed: seq<Path>)
    requires changed == ["/./a", "/.//./a"]
    ensures Unique(changed) == ["./a", ".//./a"]
  {
    DotSlashIsNotFixed();
    DoubleSlashReaches();
    UniqueOfOne("/./a");
    assert changed[..1] == ["/./a"];
  }

  /** An unsettled path is not always stuck: beside `.//./a`, which normalizes to it, one approval takes
    `./a` out of what is checked. */
  lemma AnotherPathCoversIt(rules: Rules, plan: Plan, changed: seq<Path>)
    requires changed == ["/./a", "/.//./a"]
    requires IsSensitive(rules, plan, "./a") && IsSensitive(rules, plan, ".//./a")
    ensures !IsFixed("./a") && "./a" in ToCheck(changed, [])
    ensures "./a" !in ToCheck(changed, Approve(rules, plan, changed, []))
  {
    DotSlashIsNotFixed();
    DoubleSlashReaches();
    UniqueOfTwo(changed);
    Checked(changed, [], "./a");
    Checked(changed, [], ".//./a");
    FoundPaths(rules, plan, ToCheck(changed, []), ".//./a");
    CheckedAfterApproval(rules, plan, changed, [], "./a");
  }
}
