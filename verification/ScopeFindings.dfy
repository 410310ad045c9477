/** What `ScopeDriftPolicy` finds, told from the changed files, the plan and the approvals alone. */
module ScopeFindings {
  import opened ScopeDrift
  import opened Sequences

  // ----- Which paths are checked

  function NormalForms(files: seq<Path>): seq<Path> {
    seq(|files|, i requires 0 <= i < |files| => Normalize(files[i]))
  }

  /** The distinct normal forms that are not empty, in the order of their first occurrence. */
  lemma {:induction false} UniqueIsInOrder(files: seq<Path>)
    ensures IsDistinctInOrder(NonEmpty(NormalForms(files)), Unique(files))
  {
    if files != [] {
      var before, path := files[..|files| - 1], Normalize(files[|files| - 1]);
      UniqueIsInOrder(before);
      assert NormalForms(files) == NormalForms(before) + [path];
      NonEmptyConcat(NormalForms(before), [path]);
      assert NonEmpty([path]) == if path == "" then [] else [path];
      assert NonEmpty(NormalForms(before)) + [] == NonEmpty(NormalForms(before));
      OneMoreInOrder(NonEmpty(NormalForms(before)), Unique(before), path);
    }
  }

  lemma {:induction false} NormalFormIsUnique(files: seq<Path>, f: Path)
    requires f in files && Normalize(f) != ""
    ensures Normalize(f) in Unique(files)
  {
    if f != files[|files| - 1] {
      NormalFormIsUnique(files[..|files| - 1], f);
    }
  }

  /** A path is checked when it is the normal form of a changed file, is not empty, and is the normal form of
    no approved path. */
  predicate IsChecked(changed: seq<Path>, approved: seq<Path>, p: Path) {
    && p != "" && (exists f | f in changed :: Normalize(f) == p)
    && forall a | a in approved :: Normalize(a) != p
  }

  lemma CheckedExactlyWhen(changed: seq<Path>, approved: seq<Path>, p: Path)
    ensures p in ToCheck(changed, approved) <==> IsChecked(changed, approved, p)
  {
    Checked(changed, approved, p);
    UniqueIsDistinct(changed);
    if p in Unique(changed) {
      var f := UniqueIsNormal(changed, p);
    }
    if f :| f in changed && Normalize(f) == p && p != "" {
      NormalFormIsUnique(changed, f);
    }
  }

  // ----- Scope, by components

  predicate StartsWith(path: Path, prefix: Path) {
    Split(prefix, '/') <= Split(path, '/')
  }

  lemma {:induction false} UnderUnfolds(path: Path, prefix: Path)
    requires path != "" && prefix != "" && path[0] == prefix[0]
    ensures IsUnder(path, prefix) <==> IsUnder(path[1..], prefix[1..])
  {
    assert path == [path[0]] + path[1..] && prefix == [prefix[0]] + prefix[1..];
    assert (prefix + "/")[1..] == prefix[1..] + "/" && (prefix + "/")[0] == prefix[0];
    if prefix[1..] + "/" <= path[1..] {
      assert path[..|prefix| + 1] == prefix + "/";
    }
    if prefix + "/" <= path {
      assert path[1..][..|prefix|] == prefix[1..] + "/";
    }
  }

  /** A path is under a module exactly when its first components are those of the module: `src2/x` is not
    under `src`. */
  lemma {:induction false} UnderExactlyWhen(path: Path, prefix: Path)
    ensures IsUnder(path, prefix) <==> StartsWith(path, prefix)
    decreases |prefix|
  {
    if prefix != "" && path != "" && path[0] == prefix[0] {
      UnderUnfolds(path, prefix);
      UnderExactlyWhen(path[1..], prefix[1..]);
      StartsUnfolds(path, prefix);
    } else if prefix == "" {
      assert Split(prefix, '/') == [""] && prefix + "/" == "/";
      assert "/" <= path <==> path != "" && path[0] == '/';
      assert [""] <= Split(path, '/') <==> Split(path, '/')[0] == "";
    } else {
      OtherHead(path, prefix);
    }
  }

  lemma OtherHead(path: Path, prefix: Path)
    requires prefix != "" && (path == "" || path[0] != prefix[0])
    ensures !StartsWith(path, prefix)
  {
    var ps, qs := Split(prefix, '/'), Split(path, '/');
    assert path == "" ==> qs == [""];
    assert prefix[0] != '/' ==> ps[0] != "" && ps[0][0] == prefix[0];
    assert path != "" && path[0] != '/' ==> qs[0] != "" && qs[0][0] == path[0];
    assert prefix[0] == '/' ==> |ps| > 1 && ps[0] == "";
    assert path != "" && path[0] == '/' ==> qs[0] == "";
    assert ps[0] != qs[0] || |ps| > |qs|;
  }

  lemma StartsUnfolds(path: Path, prefix: Path)
    requires path != "" && prefix != "" && path[0] == prefix[0]
    ensures StartsWith(path, prefix) <==> StartsWith(path[1..], prefix[1..])
  {
    var c := path[0];
    var ps, qs := Split(prefix[1..], '/'), Split(path[1..], '/');
    if c == '/' {
      assert [""] + ps <= [""] + qs <==> ps <= qs by {
        ConsIsPrefix("", ps, qs);
      }
    } else {
      HeadIsPrefix(c, ps, qs);
    }
  }

  lemma ConsIsPrefix(x: string, ps: seq<string>, qs: seq<string>)
    ensures [x] + ps <= [x] + qs <==> ps <= qs
  {
    if [x] + ps <= [x] + qs {
      assert forall i | 0 <= i < |ps| :: ps[i] == ([x] + ps)[i + 1] && qs[i] == ([x] + qs)[i + 1];
    }
    if ps <= qs {
      assert forall i | 0 <= i < |ps| :: ps[i] == qs[i];
    }
  }

  lemma HeadIsPrefix(c: char, ps: seq<string>, qs: seq<string>)
    requires ps != [] && qs != []
    ensures [[c] + ps[0]] + ps[1..] <= [[c] + qs[0]] + qs[1..] <==> ps <= qs
  {
    var ps', qs' := [[c] + ps[0]] + ps[1..], [[c] + qs[0]] + qs[1..];
    assert ps'[0][1..] == ps[0] && qs'[0][1..] == qs[0];
    assert forall i | 0 < i < |ps| :: ps'[i] == ps[i];
    assert forall i | 0 < i < |qs| :: qs'[i] == qs[i];
  }

  /** Nothing is out of scope when no module has a name; else a path is in scope when its first components are
    those of a named module. */
  predicate IsInScope(modules: seq<Path>, p: Path) {
    || (forall m | m in modules :: Normalize(m) == "")
    || (exists m | m in modules && Normalize(m) != "" :: StartsWith(p, Normalize(m)))
  }

  lemma InScopeExactlyWhen(modules: seq<Path>, p: Path)
    ensures InScope(modules, p) <==> IsInScope(modules, p)
  {
    var prefixes := Normals(modules) - {""};
    assert forall m | m in modules && Normalize(m) != "" :: Normalize(m) in prefixes;
    assert prefixes == {} <==> forall m | m in modules :: Normalize(m) == "" by {
      assert forall prefix | prefix in prefixes :: exists m | m in modules :: Normalize(m) == prefix && prefix != "";
    }
    forall prefix
      ensures IsUnder(p, prefix) <==> StartsWith(p, prefix)
    {
      UnderExactlyWhen(p, prefix);
    }
  }

  // ----- The decision

  predicate IsPlannedAndApproved(rules: Rules, plan: Plan, p: Path) {
    p in rules.approvedSensitive && exists f | f in plan.likelyFiles :: Normalize(f) == p
  }

  /** A migration or infrastructure file, or a dependency or workflow file that is not both planned and
    approved beforehand. */
  predicate NeedsApproval(rules: Rules, plan: Plan, p: Path) {
    || rules.isMigration(p) || rules.isInfrastructure(p)
    || ((rules.isDependency(p) || rules.isWorkflow(p)) && !IsPlannedAndApproved(rules, plan, p))
  }

  lemma SensitiveExactlyWhen(rules: Rules, plan: Plan, p: Path)
    requires p != ""
    ensures IsSensitive(rules, plan, p) <==> NeedsApproval(rules, plan, p)
  {
  }

  /** A human is needed exactly when some checked path needs approval. */
  lemma HumanIsNeededExactlyWhen(rules: Rules, plan: Plan, changed: seq<Path>, approved: seq<Path>)
    ensures
      Decide(Assess(rules, plan, changed, approved)).NeedsHuman? <==>
        exists p :: IsChecked(changed, approved, p) && NeedsApproval(rules, plan, p)
  {
    DecisionIs(rules, plan, ToCheck(changed, approved));
    forall p
      ensures p in ToCheck(changed, approved) && IsSensitive(rules, plan, p) <==>
        IsChecked(changed, approved, p) && NeedsApproval(rules, plan, p)
    {
      CheckedExactlyWhen(changed, approved, p);
      if p != "" {
        SensitiveExactlyWhen(rules, plan, p);
      }
    }
  }

  lemma ReplanByMembership(rules: Rules, plan: Plan, files: seq<Path>)
    requires AreSettled(files) && AreDistinct(files)
    ensures
      Decide(Findings(rules, plan, files)).Replan? <==>
        files != [] && forall p | p in files :: !IsSensitive(rules, plan, p) && !InScope(plan.modules, p)
  {
    UnexpectedAre(plan, files);
    DecisionIs(rules, plan, files);
  }

  predicate IsUnexpected(rules: Rules, plan: Plan, p: Path) {
    !NeedsApproval(rules, plan, p) && !IsInScope(plan.modules, p)
  }

  lemma UnexpectedByComponents(rules: Rules, plan: Plan, changed: seq<Path>, approved: seq<Path>, p: Path)
    requires p in ToCheck(changed, approved)
    ensures !IsSensitive(rules, plan, p) && !InScope(plan.modules, p) <==> IsUnexpected(rules, plan, p)
  {
    CheckedExactlyWhen(changed, approved, p);
    SensitiveExactlyWhen(rules, plan, p);
    InScopeExactlyWhen(plan.modules, p);
  }

  /** For changed paths that are fixed points, a new plan is needed exactly when there are paths to check, and
    all of them need no approval and are out of scope. */
  lemma ReplanExactlyWhen(rules: Rules, plan: Plan, changed: seq<Path>, approved: seq<Path>)
    requires AllFixed(Unique(changed))
    ensures
      Decide(Assess(rules, plan, changed, approved)).Replan? <==>
        && (exists p :: IsChecked(changed, approved, p))
        && (forall p | IsChecked(changed, approved, p) :: IsUnexpected(rules, plan, p))
  {
    var files := ToCheck(changed, approved);
    ToCheckIsSettled(changed, approved);
    ReplanByMembership(rules, plan, files);
    forall p
      ensures p in files <==> IsChecked(changed, approved, p)
      ensures p in files ==>
        (!IsSensitive(rules, plan, p) && !InScope(plan.modules, p) <==> IsUnexpected(rules, plan, p))
    {
      CheckedExactlyWhen(changed, approved, p);
      if p in files {
        UnexpectedByComponents(rules, plan, changed, approved, p);
      }
    }
    assert files != [] ==> files[0] in files;
  }

  // ----- The findings

  /** Whether the path counts for a sensitive category. */
  predicate Counts(rules: Rules, plan: Plan, category: Category, p: Path) {
    match category
    case UnexpectedModule => false
    case DependencyChange => rules.isDependency(p) && !IsPlannedAndApproved(rules, plan, p)
    case MigrationChange => rules.isMigration(p)
    case WorkflowChange => rules.isWorkflow(p) && !IsPlannedAndApproved(rules, plan, p)
    case InfrastructureChange => rules.isInfrastructure(p)
  }

  function Rank(category: Category): nat {
    match category
    case UnexpectedModule => 0
    case DependencyChange => 1
    case MigrationChange => 2
    case WorkflowChange => 3
    case InfrastructureChange => 4
  }

  /** The finding is sensitive exactly when it is not of an unexpected module, and a sensitive one holds
    exactly the checked paths that count for its category. */
  ghost predicate IsFinding(rules: Rules, plan: Plan, changed: seq<Path>, approved: seq<Path>, f: Finding) {
    && f.paths != [] && (f.sensitive <==> f.category != UnexpectedModule)
    && (f.sensitive ==>
          forall p :: p in f.paths <==> IsChecked(changed, approved, p) && Counts(rules, plan, f.category, p))
  }

  lemma OneFinding(rules: Rules, plan: Plan, changed: seq<Path>, approved: seq<Path>, category: Category)
    requires category != UnexpectedModule
    ensures
      var fs := KindFinding(rules, plan, category, ToCheck(changed, approved));
      && |fs| <= 1 && (forall f | f in fs :: f.category == category && IsFinding(rules, plan, changed, approved, f))
      && (fs != [] <==> exists p :: IsChecked(changed, approved, p) && Counts(rules, plan, category, p))
  {
    var files := ToCheck(changed, approved);
    var paths := Select(files, OfKind(rules, plan, category));
    forall p
      ensures p in paths <==> IsChecked(changed, approved, p) && Counts(rules, plan, category, p)
    {
      Selected(files, OfKind(rules, plan, category), p);
      CheckedExactlyWhen(changed, approved, p);
    }
    assert paths != [] ==> paths[0] in paths;
  }

  ghost predicate AreInOrder(fs: seq<Finding>) {
    forall i, j | 0 <= i < j < |fs| :: Rank(fs[i].category) < Rank(fs[j].category)
  }

  ghost predicate IsBetween(fs: seq<Finding>, low: nat, high: nat) {
    AreInOrder(fs) && forall i | 0 <= i < |fs| :: low <= Rank(fs[i].category) < high
  }

  lemma ConcatIsBetween(a: seq<Finding>, b: seq<Finding>, low: nat, mid: nat, high: nat)
    requires IsBetween(a, low, mid) && IsBetween(b, mid, high) && low <= mid <= high
    ensures IsBetween(a + b, low, high)
  {
  }

  /** The findings of one category: at most one. */
  function PartOf(rules: Rules, plan: Plan, files: seq<Path>, category: Category): seq<Finding> {
    if category == UnexpectedModule then FindingOf(category, Unexpected(plan, files))
    else KindFinding(rules, plan, category, files)
  }

  lemma InPart(rules: Rules, plan: Plan, files: seq<Path>, f: Finding)
    ensures f in Findings(rules, plan, files) <==> f in PartOf(rules, plan, files, f.category)
  {
    var d, m := KindFinding(rules, plan, DependencyChange, files), KindFinding(rules, plan, MigrationChange, files);
    var w, i := KindFinding(rules, plan, WorkflowChange, files), KindFinding(rules, plan, InfrastructureChange, files);
    assert f in d + m + w + i <==> f in d || f in m || f in w || f in i;
  }

  lemma PartIsBetween(rules: Rules, plan: Plan, files: seq<Path>, category: Category)
    ensures IsBetween(PartOf(rules, plan, files, category), Rank(category), Rank(category) + 1)
  {
  }

  lemma FindingsAreInOrder(rules: Rules, plan: Plan, files: seq<Path>)
    ensures AreInOrder(Findings(rules, plan, files))
  {
    var d, m := PartOf(rules, plan, files, DependencyChange), PartOf(rules, plan, files, MigrationChange);
    var w, i := PartOf(rules, plan, files, WorkflowChange), PartOf(rules, plan, files, InfrastructureChange);
    var u := PartOf(rules, plan, files, UnexpectedModule);
    PartIsBetween(rules, plan, files, DependencyChange);
    PartIsBetween(rules, plan, files, MigrationChange);
    PartIsBetween(rules, plan, files, WorkflowChange);
    PartIsBetween(rules, plan, files, InfrastructureChange);
    PartIsBetween(rules, plan, files, UnexpectedModule);
    ConcatIsBetween(d, m, 1, 2, 3);
    ConcatIsBetween(d + m, w, 1, 3, 4);
    ConcatIsBetween(d + m + w, i, 1, 4, 5);
    ConcatIsBetween(u, d + m + w + i, 0, 1, 5);
    assert Findings(rules, plan, files) == u + (d + m + w + i);
  }

  /** At most one finding of each category, in the order of the categories; one of a sensitive category exactly
    when some checked path counts for it, and with all such paths. */
  lemma FindingsAre(rules: Rules, plan: Plan, changed: seq<Path>, approved: seq<Path>, f: Finding)
    ensures AreInOrder(Assess(rules, plan, changed, approved))
    ensures f in Assess(rules, plan, changed, approved) ==> IsFinding(rules, plan, changed, approved, f)
  {
    FindingsAreInOrder(rules, plan, ToCheck(changed, approved));
    InPart(rules, plan, ToCheck(changed, approved), f);
    if f.category != UnexpectedModule {
      OneFinding(rules, plan, changed, approved, f.category);
    }
  }

  lemma FoundExactlyWhen(rules: Rules, plan: Plan, changed: seq<Path>, approved: seq<Path>, category: Category)
    requires category != UnexpectedModule
    ensures (exists f | f in Assess(rules, plan, changed, approved) :: f.category == category) <==>
        exists p :: IsChecked(changed, approved, p) && Counts(rules, plan, category, p)
  {
    var files := ToCheck(changed, approved);
    OneFinding(rules, plan, changed, approved, category);
    forall f
      ensures f in Findings(rules, plan, files) <==> f in PartOf(rules, plan, files, f.category)
    {
      InPart(rules, plan, files, f);
    }
    var own := PartOf(rules, plan, files, category);
    assert own != [] ==> own[0] in own;
  }
}
