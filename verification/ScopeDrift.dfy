/** `ScopeDriftPolicy`: which changed paths are a finding, and what approving the findings does.

  A path is a finding by its own kind (a dependency, migration, workflow or infrastructure file), or
  because every changed path is outside the planned modules. The kinds are any predicates on paths. */
module ScopeDrift {
  import JsonText

  type Path = string

  // ----- Normal form

  function ForwardSlashes(s: string): string {
    seq(|s|, i requires 0 <= i < |s| => if s[i] == '\\' then '/' else s[i])
  }

  function LStrip(s: string, drop: char -> bool): string {
    if s != "" && drop(s[0]) then LStrip(s[1..], drop) else s
  }

  function RStrip(s: string, drop: char -> bool): string {
    if s != "" && drop(s[|s| - 1]) then RStrip(s[..|s| - 1], drop) else s
  }

  function Strip(s: string, drop: char -> bool): string {
    RStrip(LStrip(s, drop), drop)
  }

  predicate IsSlash(c: char) {
    c == '/'
  }

  function StripSpaces(s: string): string {
    Strip(s, JsonText.IsSpace)
  }

  function StripSlashes(s: string): string {
    Strip(s, IsSlash)
  }

  function DropHere(s: string): string {
    if "./" <= s then DropHere(s[2..]) else s
  }

  /** `_normalize_path` */
  function Normalize(path: Path): Path {
    StripSlashes(DropHere(StripSpaces(ForwardSlashes(path))))
  }

  method NormalizePath(path: Path) returns (normalized: Path)
    ensures normalized == Normalize(path)
  {
    normalized := StripSpaces(ForwardSlashes(path));
    while "./" <= normalized
      invariant DropHere(normalized) == DropHere(StripSpaces(ForwardSlashes(path)))
      decreases |normalized|
    {
      normalized := normalized[2..];
    }
    normalized := StripSlashes(normalized);
  }

  predicate IsFixed(path: Path) {
    Normalize(path) == path
  }

  /** A path that does not start with `./` and has no white space at either end. */
  predicate IsSettled(path: Path) {
    && !("./" <= path)
    && (path != "" ==> !JsonText.IsSpace(path[0]) && !JsonText.IsSpace(path[|path| - 1]))
  }

  lemma {:induction false} LStripShortens(s: string, drop: char -> bool)
    ensures |LStrip(s, drop)| < |s| || LStrip(s, drop) == s
    ensures LStrip(s, drop) == s <==> s == "" || !drop(s[0])
    ensures LStrip(s, drop) != "" ==> !drop(LStrip(s, drop)[0]) && LStrip(s, drop) == s[|s| - |LStrip(s, drop)|..]
  {
    if s != "" && drop(s[0]) {
      LStripShortens(s[1..], drop);
    }
  }

  lemma {:induction false} RStripShortens(s: string, drop: char -> bool)
    ensures |RStrip(s, drop)| < |s| || RStrip(s, drop) == s
    ensures RStrip(s, drop) == s <==> s == "" || !drop(s[|s| - 1])
    ensures RStrip(s, drop) == s[..|RStrip(s, drop)|]
    ensures RStrip(s, drop) != "" ==> !drop(RStrip(s, drop)[|RStrip(s, drop)| - 1])
  {
    if s != "" && drop(s[|s| - 1]) {
      RStripShortens(s[..|s| - 1], drop);
    }
  }

  lemma StripEnds(s: string, drop: char -> bool)
    ensures |Strip(s, drop)| < |s| || Strip(s, drop) == s
    ensures Strip(s, drop) == s <==> s == "" || (!drop(s[0]) && !drop(s[|s| - 1]))
    ensures Strip(s, drop) != "" ==> !drop(Strip(s, drop)[0]) && !drop(Strip(s, drop)[|Strip(s, drop)| - 1])
  {
    LStripShortens(s, drop);
    RStripShortens(LStrip(s, drop), drop);
  }

  lemma {:induction false} DropHereShortens(s: string)
    ensures |DropHere(s)| < |s| || DropHere(s) == s
    ensures DropHere(s) == s <==> !("./" <= s)
  {
    if "./" <= s {
      DropHereShortens(s[2..]);
    }
  }

  ghost predicate NoneOf(s: string, c: char) {
    forall i | 0 <= i < |s| :: s[i] != c
  }

  lemma {:induction false} LStripKeepsNone(s: string, drop: char -> bool, c: char)
    requires NoneOf(s, c)
    ensures NoneOf(LStrip(s, drop), c)
  {
    if s != "" && drop(s[0]) {
      LStripKeepsNone(s[1..], drop, c);
    }
  }

  lemma {:induction false} DropHereKeepsNone(s: string, c: char)
    requires NoneOf(s, c)
    ensures NoneOf(DropHere(s), c)
  {
    if "./" <= s {
      DropHereKeepsNone(s[2..], c);
    }
  }

  lemma StripKeepsNone(s: string, drop: char -> bool, c: char)
    requires NoneOf(s, c)
    ensures NoneOf(Strip(s, drop), c)
  {
    LStripKeepsNone(s, drop, c);
    RStripShortens(LStrip(s, drop), drop);
  }

  lemma NormalHasNoBackslash(path: Path)
    ensures NoneOf(Normalize(path), '\\')
  {
    var s := ForwardSlashes(path);
    StripKeepsNone(s, JsonText.IsSpace, '\\');
    DropHereKeepsNone(StripSpaces(s), '\\');
    StripKeepsNone(DropHere(StripSpaces(s)), IsSlash, '\\');
  }

  /** A path with no backslash and no slash at its ends is a fixed point exactly when it is settled. */
  lemma FixedExactlyWhen(n: Path)
    requires NoneOf(n, '\\') && (n != "" ==> n[0] != '/' && n[|n| - 1] != '/')
    ensures IsFixed(n) <==> IsSettled(n)
    ensures |Normalize(n)| < |n| || IsFixed(n)
  {
    assert ForwardSlashes(n) == n;
    var a := StripSpaces(n);
    var b := DropHere(a);
    assert Normalize(n) == StripSlashes(b);
    StripEnds(n, JsonText.IsSpace);
    DropHereShortens(a);
    StripEnds(b, IsSlash);
    assert |StripSlashes(b)| <= |b| <= |a| <= |n|;
    if a == n && b == a {
      assert n == "" || (!IsSlash(n[0]) && !IsSlash(n[|n| - 1]));
    } else {
      assert |b| < |n|;
    }
  }

  /** Normalizing is not idempotent. A normalized path is a fixed point exactly when it is settled;
    otherwise normalizing it again makes it shorter. */
  lemma FixedExactlyWhenSettled(path: Path)
    ensures IsFixed(Normalize(path)) <==> IsSettled(Normalize(path))
    ensures |Normalize(Normalize(path))| < |Normalize(path)| || IsFixed(Normalize(path))
  {
    NormalHasNoBackslash(path);
    StripEnds(DropHere(StripSpaces(ForwardSlashes(path))), IsSlash);
    FixedExactlyWhen(Normalize(path));
  }

  // ----- Assessing

  /** The kinds of sensitive files, and the plan's expected modules and likely files. */
  datatype Rules = Rules(isDependency: Path -> bool, isMigration: Path -> bool, isWorkflow: Path -> bool,
                         isInfrastructure: Path -> bool, approvedSensitive: set<Path>)

  datatype Plan = Plan(modules: seq<Path>, likelyFiles: seq<Path>)

  datatype Category = UnexpectedModule | DependencyChange | MigrationChange | WorkflowChange | InfrastructureChange

  datatype Finding = Finding(category: Category, paths: seq<Path>, sensitive: bool)

  datatype Decision = Continue | Replan | NeedsHuman

  /** The distinct normal forms, empty ones left out, in order. */
  function Unique(files: seq<Path>): (us: seq<Path>) {
    if files == [] then []
    else
      var before, path := Unique(files[..|files| - 1]), Normalize(files[|files| - 1]);
      if path == "" || path in before then before else before + [path]
  }

  method UniqueNormalizedPaths(files: seq<Path>) returns (unique: seq<Path>)
    ensures unique == Unique(files)
  {
    unique := [];
    var seen: set<Path> := {};
    for i := 0 to |files|
      invariant unique == Unique(files[..i])
      invariant forall p :: p in seen <==> p in unique
    {
      assert files[..i + 1][..i] == files[..i];
      var normalized := NormalizePath(files[i]);
      if normalized != "" && normalized !in seen {
        unique := unique + [normalized];
        seen := seen + {normalized};
      }
    }
    assert files[..|files|] == files;
  }

  function Normals(paths: seq<Path>): set<Path> {
    set p | p in paths :: Normalize(p)
  }

  predicate IsUnder(path: Path, prefix: Path) {
    path == prefix || prefix + "/" <= path
  }

  predicate IsUnderAny(path: Path, prefixes: set<Path>) {
    exists prefix | prefix in prefixes :: IsUnder(path, prefix)
  }

  /** The selections an assessment makes: the paths not covered by approved ones, those under none of the
    prefixes, and those of a sensitive kind. */
  datatype Selection =
    | Uncovered(normals: set<Path>)
    | Outside(prefixes: set<Path>)
    | OfKind(rules: Rules, plan: Plan, category: Category)

  predicate Keeps(selection: Selection, p: Path) {
    match selection
    case Uncovered(normals) => p !in normals
    case Outside(prefixes) => !IsUnderAny(p, prefixes)
    case OfKind(rules, plan, category) => IsOfKind(rules, plan, category, p)
  }

  predicate IsExempt(rules: Rules, plan: Plan, p: Path) {
    p in rules.approvedSensitive && p in Normals(plan.likelyFiles) - {""}
  }

  predicate IsOfKind(rules: Rules, plan: Plan, category: Category, p: Path) {
    match category
    case DependencyChange => rules.isDependency(p) && !IsExempt(rules, plan, p)
    case MigrationChange => rules.isMigration(p)
    case WorkflowChange => rules.isWorkflow(p) && !IsExempt(rules, plan, p)
    case InfrastructureChange => rules.isInfrastructure(p)
    case UnexpectedModule => false
  }

  function Select(paths: seq<Path>, selection: Selection): (kept: seq<Path>)
    ensures |kept| <= |paths|
  {
    if paths == [] then []
    else (if Keeps(selection, paths[0]) then [paths[0]] else []) + Select(paths[1..], selection)
  }

  /** `paths_outside_scope`, which normalizes the paths it is given once more. */
  function OutsideScope(modules: seq<Path>, files: seq<Path>): seq<Path> {
    var prefixes := Normals(modules) - {""};
    if prefixes == {} then [] else Select(Unique(files), Outside(prefixes))
  }

  function FindingOf(category: Category, paths: seq<Path>): seq<Finding> {
    if paths == [] then [] else [Finding(category, paths, !category.UnexpectedModule?)]
  }

  /** The changed paths that are still to be checked. */
  function ToCheck(changed: seq<Path>, approved: seq<Path>): seq<Path> {
    Select(Unique(changed), Uncovered(Normals(approved)))
  }

  /** The unexpected paths, when they are all the paths there are. */
  function Unexpected(plan: Plan, files: seq<Path>): seq<Path> {
    var unexpected := OutsideScope(plan.modules, files);
    if |unexpected| == |files| then unexpected else []
  }

  function SensitiveFindings(rules: Rules, plan: Plan, files: seq<Path>): seq<Finding> {
    KindFinding(rules, plan, DependencyChange, files)
    + KindFinding(rules, plan, MigrationChange, files)
    + KindFinding(rules, plan, WorkflowChange, files)
    + KindFinding(rules, plan, InfrastructureChange, files)
  }

  function KindFinding(rules: Rules, plan: Plan, category: Category, files: seq<Path>): seq<Finding> {
    FindingOf(category, Select(files, OfKind(rules, plan, category)))
  }

  function Findings(rules: Rules, plan: Plan, files: seq<Path>): seq<Finding> {
    FindingOf(UnexpectedModule, Unexpected(plan, files)) + SensitiveFindings(rules, plan, files)
  }

  function Assess(rules: Rules, plan: Plan, changed: seq<Path>, approved: seq<Path>): seq<Finding> {
    Findings(rules, plan, ToCheck(changed, approved))
  }

  function Decide(findings: seq<Finding>): Decision {
    if findings == [] then Continue
    else if exists i | 0 <= i < |findings| :: findings[i].sensitive then NeedsHuman
    else Replan
  }

  /** `if paths: findings.append(...)` */
  method AddFinding(findings: seq<Finding>, category: Category, paths: seq<Path>) returns (more: seq<Finding>)
    ensures more == findings + FindingOf(category, paths)
  {
    more := findings;
    if paths != [] {
      more := more + [Finding(category, paths, !category.UnexpectedModule?)];
    }
  }

  method SensitiveFindingsOf(rules: Rules, plan: Plan, files: seq<Path>) returns (findings: seq<Finding>)
    ensures findings == SensitiveFindings(rules, plan, files)
  {
    findings := AddFinding([], DependencyChange, Select(files, OfKind(rules, plan, DependencyChange)));
    findings := AddFinding(findings, MigrationChange, Select(files, OfKind(rules, plan, MigrationChange)));
    findings := AddFinding(findings, WorkflowChange, Select(files, OfKind(rules, plan, WorkflowChange)));
    findings := AddFinding(findings, InfrastructureChange, Select(files, OfKind(rules, plan, InfrastructureChange)));
  }

  method FindingsOf(rules: Rules, plan: Plan, files: seq<Path>) returns (findings: seq<Finding>)
    ensures findings == Findings(rules, plan, files)
  {
    var unexpected := OutsideScope(plan.modules, files);
    findings := AddFinding([], UnexpectedModule, if |unexpected| == |files| then unexpected else []);
    var sensitive := SensitiveFindingsOf(rules, plan, files);
    findings := findings + sensitive;
  }

  /** `assess`, with the decision it returns. */
  method AssessScope(rules: Rules, plan: Plan, changed: seq<Path>, approved: seq<Path>)
    returns (findings: seq<Finding>, decision: Decision)
    ensures findings == Assess(rules, plan, changed, approved) && decision == Decide(findings)
  {
    var unique := UniqueNormalizedPaths(changed);
    var files := Select(unique, Uncovered(Normals(approved)));
    findings := FindingsOf(rules, plan, files);
    decision := Decide(findings);
  }

  function FindingPaths(findings: seq<Finding>): seq<Path> {
    if findings == [] then [] else findings[0].paths + FindingPaths(findings[1..])
  }

  /** Approving every path of every finding of an assessment. */
  function Approve(rules: Rules, plan: Plan, changed: seq<Path>, approved: seq<Path>): seq<Path> {
    approved + FindingPaths(Assess(rules, plan, changed, approved))
  }

  predicate IsSensitive(rules: Rules, plan: Plan, p: Path) {
    || IsOfKind(rules, plan, DependencyChange, p)
    || IsOfKind(rules, plan, MigrationChange, p)
    || IsOfKind(rules, plan, WorkflowChange, p)
    || IsOfKind(rules, plan, InfrastructureChange, p)
  }

  predicate InScope(modules: seq<Path>, p: Path) {
    var prefixes := Normals(modules) - {""};
    prefixes == {} || IsUnderAny(p, prefixes)
  }

  // ----- What is found, by membership

  lemma {:induction false} Selected(paths: seq<Path>, selection: Selection, p: Path)
    ensures p in Select(paths, selection) <==> p in paths && Keeps(selection, p)
  {
    if paths != [] {
      Selected(paths[1..], selection, p);
    }
  }

  lemma {:induction false} SelectedAll(paths: seq<Path>, selection: Selection)
    ensures |Select(paths, selection)| == |paths| <==> forall i | 0 <= i < |paths| :: Keeps(selection, paths[i])
  {
    if paths != [] {
      SelectedAll(paths[1..], selection);
    }
  }

  lemma {:induction false} FindingPathsConcat(a: seq<Finding>, b: seq<Finding>)
    ensures FindingPaths(a + b) == FindingPaths(a) + FindingPaths(b)
  {
    if a == [] {
      assert a + b == b;
    } else {
      assert (a + b)[1..] == a[1..] + b;
      FindingPathsConcat(a[1..], b);
    }
  }

  lemma PathsOfFinding(category: Category, paths: seq<Path>)
    ensures FindingPaths(FindingOf(category, paths)) == paths
  {
    if paths != [] {
      var fs := FindingOf(category, paths);
      assert FindingPaths(fs) == fs[0].paths + FindingPaths(fs[1..]);
    }
  }

  lemma KindPaths(rules: Rules, plan: Plan, category: Category, files: seq<Path>, p: Path)
    ensures p in FindingPaths(KindFinding(rules, plan, category, files)) <==>
        p in files && IsOfKind(rules, plan, category, p)
  {
    Selected(files, OfKind(rules, plan, category), p);
    PathsOfFinding(category, Select(files, OfKind(rules, plan, category)));
  }

  lemma SensitivePaths(rules: Rules, plan: Plan, files: seq<Path>, p: Path)
    ensures p in FindingPaths(SensitiveFindings(rules, plan, files)) <==> p in files && IsSensitive(rules, plan, p)
  {
    KindPaths(rules, plan, DependencyChange, files, p);
    KindPaths(rules, plan, MigrationChange, files, p);
    KindPaths(rules, plan, WorkflowChange, files, p);
    KindPaths(rules, plan, InfrastructureChange, files, p);
    var a, b := KindFinding(rules, plan, DependencyChange, files), KindFinding(rules, plan, MigrationChange, files);
    var c := KindFinding(rules, plan, WorkflowChange, files);
    FindingPathsConcat(a, b);
    FindingPathsConcat(a + b, c);
    FindingPathsConcat(a + b + c, KindFinding(rules, plan, InfrastructureChange, files));
  }

  /** The paths of the findings: the sensitive ones, and all of them if all are unexpected. */
  lemma FoundPaths(rules: Rules, plan: Plan, files: seq<Path>, p: Path)
    ensures p in FindingPaths(Findings(rules, plan, files))
      <==> p in Unexpected(plan, files) || (p in files && IsSensitive(rules, plan, p))
  {
    var u := FindingOf(UnexpectedModule, Unexpected(plan, files));
    var rest := SensitiveFindings(rules, plan, files);
    FindingPathsConcat(u, rest);
    PathsOfFinding(UnexpectedModule, Unexpected(plan, files));
    SensitivePaths(rules, plan, files, p);
  }

  lemma SensitiveAreSensitive(rules: Rules, plan: Plan, files: seq<Path>)
    ensures AllSensitive(SensitiveFindings(rules, plan, files))
    ensures SensitiveFindings(rules, plan, files) == [] <==> FindingPaths(SensitiveFindings(rules, plan, files)) == []
  {
    var fs := SensitiveFindings(rules, plan, files);
    if fs != [] {
      assert FindingPaths(fs) == fs[0].paths + FindingPaths(fs[1..]);
      assert fs[0].paths != [];
    }
  }

  predicate AllSensitive(findings: seq<Finding>) {
    forall i | 0 <= i < |findings| :: findings[i].sensitive
  }

  /** There are sensitive findings exactly when some path is sensitive. */
  lemma SensitiveFound(rules: Rules, plan: Plan, files: seq<Path>)
    ensures SensitiveFindings(rules, plan, files) != [] <==> exists p | p in files :: IsSensitive(rules, plan, p)
  {
    var found := FindingPaths(SensitiveFindings(rules, plan, files));
    SensitiveAreSensitive(rules, plan, files);
    forall p
      ensures p in found <==> p in files && IsSensitive(rules, plan, p)
    {
      SensitivePaths(rules, plan, files, p);
    }
    assert found != [] ==> found[0] in found;
  }

  lemma DecisionOfBoth(unexpected: seq<Finding>, rest: seq<Finding>)
    requires AllSensitive(rest) && forall i | 0 <= i < |unexpected| :: !unexpected[i].sensitive
    ensures Decide(unexpected + rest).NeedsHuman? <==> rest != []
    ensures Decide(unexpected + rest).Continue? <==> unexpected == [] && rest == []
  {
    var all := unexpected + rest;
    assert rest != [] ==> all[|unexpected|] == rest[0] && rest[0].sensitive;
  }

  /** The decision, by membership: a sensitive path needs a human; without one, only paths that are
    all unexpected lead to a new plan. */
  lemma DecisionIs(rules: Rules, plan: Plan, files: seq<Path>)
    ensures
      var decision := Decide(Findings(rules, plan, files));
      && (decision.NeedsHuman? <==> exists p | p in files :: IsSensitive(rules, plan, p))
      && (decision.Continue? <==>
            Unexpected(plan, files) == [] && forall p | p in files :: !IsSensitive(rules, plan, p))
  {
    SensitiveAreSensitive(rules, plan, files);
    SensitiveFound(rules, plan, files);
    DecisionOfBoth(FindingOf(UnexpectedModule, Unexpected(plan, files)), SensitiveFindings(rules, plan, files));
  }

  // ----- Settled paths

  predicate AreSettled(files: seq<Path>) {
    forall i | 0 <= i < |files| :: IsFixed(files[i]) && files[i] != ""
  }

  predicate AreDistinct(files: seq<Path>) {
    forall i, j | 0 <= i < j < |files| :: files[i] != files[j]
  }

  lemma {:induction false} UniqueIsDistinct(files: seq<Path>)
    ensures AreDistinct(Unique(files)) && "" !in Unique(files)
  {
    if files != [] {
      UniqueIsDistinct(files[..|files| - 1]);
    }
  }

  /** A unique path is the normal form of one of the files. */
  lemma {:induction false} UniqueIsNormal(files: seq<Path>, u: Path) returns (f: Path)
    requires u in Unique(files)
    ensures f in files && u == Normalize(f)
  {
    f := files[|files| - 1];
    if u in Unique(files[..|files| - 1]) {
      f := UniqueIsNormal(files[..|files| - 1], u);
    }
  }

  /** On distinct settled paths normalizing again changes nothing. */
  lemma {:induction false} UniqueOfSettled(files: seq<Path>)
    requires AreSettled(files) && AreDistinct(files)
    ensures Unique(files) == files
  {
    if files != [] {
      var before, last := files[..|files| - 1], files[|files| - 1];
      UniqueOfSettled(before);
      assert last !in before && Normalize(last) == last && last != "";
      assert Unique(files) == before + [last];
    }
  }

  lemma ConsKeeps(first: Path, rest: seq<Path>)
    requires AreSettled(rest) && AreDistinct(rest)
    requires IsFixed(first) && first != "" && first !in rest
    ensures AreSettled([first] + rest) && AreDistinct([first] + rest)
  {
  }

  lemma {:induction false} SelectKeeps(paths: seq<Path>, selection: Selection)
    requires AreSettled(paths) && AreDistinct(paths)
    ensures AreSettled(Select(paths, selection)) && AreDistinct(Select(paths, selection))
  {
    if paths != [] {
      SelectKeeps(paths[1..], selection);
      if Keeps(selection, paths[0]) {
        Selected(paths[1..], selection, paths[0]);
        ConsKeeps(paths[0], Select(paths[1..], selection));
      } else {
        assert Select(paths, selection) == Select(paths[1..], selection);
      }
    }
  }

  /** For distinct settled paths: all of them are unexpected, or none counts. */
  lemma UnexpectedAre(plan: Plan, files: seq<Path>)
    requires AreSettled(files) && AreDistinct(files)
    ensures Unexpected(plan, files) == files || Unexpected(plan, files) == []
    ensures Unexpected(plan, files) == [] <==> files == [] || exists p | p in files :: InScope(plan.modules, p)
  {
    UniqueOfSettled(files);
    var prefixes := Normals(plan.modules) - {""};
    if prefixes == {} {
      assert files == [] || InScope(plan.modules, files[0]);
    } else {
      var outside := Outside(prefixes);
      assert OutsideScope(plan.modules, files) == Select(files, outside);
      SelectedAll(files, outside);
      if |Select(files, outside)| == |files| {
        SelectAllIsSame(files, outside);
        assert forall p | p in files :: !InScope(plan.modules, p);
      } else {
        var i :| 0 <= i < |files| && !Keeps(outside, files[i]);
        assert InScope(plan.modules, files[i]);
      }
    }
  }

  lemma {:induction false} SelectAllIsSame(paths: seq<Path>, selection: Selection)
    requires |Select(paths, selection)| == |paths|
    ensures Select(paths, selection) == paths
  {
    if paths != [] {
      SelectAllIsSame(paths[1..], selection);
    }
  }

  // ----- Approving

  lemma Checked(changed: seq<Path>, approved: seq<Path>, p: Path)
    ensures p in ToCheck(changed, approved) <==> p in Unique(changed) && p !in Normals(approved)
  {
    Selected(Unique(changed), Uncovered(Normals(approved)), p);
  }

  /** What is still to be checked after every finding was approved. */
  lemma CheckedAfterApproval(rules: Rules, plan: Plan, changed: seq<Path>, approved: seq<Path>, p: Path)
    ensures
      var files := ToCheck(changed, approved);
      p in ToCheck(changed, Approve(rules, plan, changed, approved)) <==>
        p in files && p !in Normals(FindingPaths(Findings(rules, plan, files)))
  {
    var found := FindingPaths(Assess(rules, plan, changed, approved));
    Checked(changed, approved, p);
    Checked(changed, approved + found, p);
    assert p in Normals(approved + found) <==> p in Normals(approved) || p in Normals(found);
  }

  predicate AllFixed(files: seq<Path>) {
    forall i | 0 <= i < |files| :: IsFixed(files[i])
  }

  lemma ToCheckIsSettled(changed: seq<Path>, approved: seq<Path>)
    requires AllFixed(Unique(changed))
    ensures AreSettled(ToCheck(changed, approved)) && AreDistinct(ToCheck(changed, approved))
  {
    UniqueIsDistinct(changed);
    SelectKeeps(Unique(changed), Uncovered(Normals(approved)));
  }

  /** For settled paths an approval takes exactly the finding paths out: the sensitive ones, and all
    of them if all are unexpected. */
  lemma ApprovalRemoves(rules: Rules, plan: Plan, changed: seq<Path>, approved: seq<Path>, p: Path)
    requires AllFixed(Unique(changed))
    ensures
      var files := ToCheck(changed, approved);
      p in ToCheck(changed, Approve(rules, plan, changed, approved)) <==>
        p in files && !IsSensitive(rules, plan, p) && Unexpected(plan, files) == []
  {
    var files := ToCheck(changed, approved);
    var found := FindingPaths(Findings(rules, plan, files));
    ToCheckIsSettled(changed, approved);
    UnexpectedAre(plan, files);
    CheckedAfterApproval(rules, plan, changed, approved, p);
    if p in files {
      FoundPaths(rules, plan, files, p);
      assert IsFixed(p);
      if p in Normals(found) {
        var q :| q in found && Normalize(q) == p;
        FoundPaths(rules, plan, files, q);
        assert q in files && IsFixed(q);
      }
    }
  }

  lemma StillChecked(rules: Rules, plan: Plan, changed: seq<Path>, approved: seq<Path>)
    ensures
      var files := ToCheck(changed, approved);
      !Decide(Assess(rules, plan, changed, Approve(rules, plan, changed, approved))).NeedsHuman? <==>
        forall p | p in files && IsSensitive(rules, plan, p) :: p in Normals(FindingPaths(Findings(rules, plan, files)))
  {
    forall p
      ensures
        var files := ToCheck(changed, approved);
        p in ToCheck(changed, Approve(rules, plan, changed, approved)) <==>
          p in files && p !in Normals(FindingPaths(Findings(rules, plan, files)))
    {
      CheckedAfterApproval(rules, plan, changed, approved, p);
    }
    DecisionIs(rules, plan, ToCheck(changed, Approve(rules, plan, changed, approved)));
  }

  /** Another path among those found normalizes to `p`. */
  predicate IsReachedBy(found: seq<Path>, p: Path) {
    exists q | q in found && q != p :: Normalize(q) == p
  }

  /** A sensitive path is found, so an approval covers it when it is settled. */
  lemma CoveredExactlyWhen(rules: Rules, plan: Plan, changed: seq<Path>, approved: seq<Path>, p: Path)
    requires p in ToCheck(changed, approved) && IsSensitive(rules, plan, p)
    ensures
      var found := FindingPaths(Findings(rules, plan, ToCheck(changed, approved)));
      p in Normals(found) <==> IsSettled(p) || IsReachedBy(found, p)
  {
    FoundPaths(rules, plan, ToCheck(changed, approved), p);
    Checked(changed, approved, p);
    var f := UniqueIsNormal(changed, p);
    FixedExactlyWhenSettled(f);
  }

  /** For all paths, settled or not: one approval leaves no sensitive finding exactly when every
    sensitive path is settled, or another path found normalizes to it. */
  lemma ApprovalClearsExactlyWhen(rules: Rules, plan: Plan, changed: seq<Path>, approved: seq<Path>)
    ensures
      var files := ToCheck(changed, approved);
      !Decide(Assess(rules, plan, changed, Approve(rules, plan, changed, approved))).NeedsHuman? <==>
        forall p | p in files && IsSensitive(rules, plan, p) ::
          IsSettled(p) || IsReachedBy(FindingPaths(Findings(rules, plan, files)), p)
  {
    StillChecked(rules, plan, changed, approved);
    forall p | p in ToCheck(changed, approved) && IsSensitive(rules, plan, p)
      ensures
        var found := FindingPaths(Findings(rules, plan, ToCheck(changed, approved)));
        p in Normals(found) <==> IsSettled(p) || IsReachedBy(found, p)
    {
      CoveredExactlyWhen(rules, plan, changed, approved, p);
    }
  }

  /** For settled paths one approval leaves no sensitive finding. */
  lemma ApprovalClearsSensitive(rules: Rules, plan: Plan, changed: seq<Path>, approved: seq<Path>)
    requires AllFixed(Unique(changed))
    ensures !Decide(Assess(rules, plan, changed, Approve(rules, plan, changed, approved))).NeedsHuman?
  {
    var files := ToCheck(changed, Approve(rules, plan, changed, approved));
    forall p | p in files
      ensures !IsSensitive(rules, plan, p)
    {
      ApprovalRemoves(rules, plan, changed, approved, p);
    }
    DecisionIs(rules, plan, files);
  }

  /** Exactly when one approval is enough: all paths were unexpected, or all were sensitive, or a path
    that was not sensitive is in scope. A caller can see this in the first assessment. */
  lemma OneApprovalContinuesExactlyWhen(rules: Rules, plan: Plan, changed: seq<Path>, approved: seq<Path>)
    requires AllFixed(Unique(changed))
    ensures
      var files := ToCheck(changed, approved);
      Decide(Assess(rules, plan, changed, Approve(rules, plan, changed, approved))).Continue?
        <==>
        || (forall p | p in files :: !InScope(plan.modules, p))
        || (forall p | p in files :: IsSensitive(rules, plan, p))
        || (exists p | p in files :: !IsSensitive(rules, plan, p) && InScope(plan.modules, p))
  {
    var files := ToCheck(changed, approved);
    var approved2 := Approve(rules, plan, changed, approved);
    var files2 := ToCheck(changed, approved2);
    ToCheckIsSettled(changed, approved);
    ToCheckIsSettled(changed, approved2);
    UnexpectedAre(plan, files);
    UnexpectedAre(plan, files2);
    DecisionIs(rules, plan, files2);
    forall p
      ensures p in files2 <==> p in files && !IsSensitive(rules, plan, p) && Unexpected(plan, files) == []
    {
      ApprovalRemoves(rules, plan, changed, approved, p);
    }
    assert files2 == [] || files2[0] in files2;
    assert files == [] || files[0] in files;
  }

  /** Two approvals always reach CONTINUE. */
  lemma TwoApprovalsContinue(rules: Rules, plan: Plan, changed: seq<Path>, approved: seq<Path>)
    requires AllFixed(Unique(changed))
    ensures
      var approved2 := Approve(rules, plan, changed, approved);
      Decide(Assess(rules, plan, changed, Approve(rules, plan, changed, approved2))).Continue?
  {
    var approved2 := Approve(rules, plan, changed, approved);
    var files2 := ToCheck(changed, approved2);
    forall p | p in files2
      ensures !IsSensitive(rules, plan, p)
    {
      ApprovalRemoves(rules, plan, changed, approved, p);
    }
    OneApprovalContinuesExactlyWhen(rules, plan, changed, approved2);
  }

  // ----- Where it fails

  /** When every path in scope is sensitive, there is one, and some other path is not sensitive, the
    approval takes away what was in scope, and then all that is left is unexpected. */
  lemma ApprovalCanBringANewFinding(rules: Rules, plan: Plan, changed: seq<Path>, approved: seq<Path>,
                                    inside: Path, other: Path)
    requires AllFixed(Unique(changed))
    requires inside in ToCheck(changed, approved) && InScope(plan.modules, inside)
    requires other in ToCheck(changed, approved) && !IsSensitive(rules, plan, other)
    requires forall p | p in ToCheck(changed, approved) && InScope(plan.modules, p) :: IsSensitive(rules, plan, p)
    ensures Decide(Assess(rules, plan, changed, Approve(rules, plan, changed, approved))).Replan?
  {
    ApprovalClearsSensitive(rules, plan, changed, approved);
    OneApprovalContinuesExactlyWhen(rules, plan, changed, approved);
  }

  const WITNESS: seq<Path> := ["a/x", "b"]

  lemma ShortNamesAreFixed()
    ensures IsFixed("a") && IsFixed("b") && IsFixed("a/x")
  {
    FixedExactlyWhen("a");
    FixedExactlyWhen("b");
    FixedExactlyWhen("a/x");
  }

  lemma WitnessIsSettled()
    ensures Unique(WITNESS) == WITNESS && AllFixed(WITNESS)
  {
    ShortNamesAreFixed();
    UniqueOfSettled(WITNESS);
  }

  lemma WitnessScope()
    ensures InScope(["a"], "a/x") && !InScope(["a"], "b")
  {
    ShortNamesAreFixed();
    assert Normals(["a"]) == {"a"} by {
      assert ["a"][0] in ["a"];
    }
    assert IsUnder("a/x", "a");
    assert !IsUnder("b", "a");
    assert Normals(["a"]) - {""} == {"a"};
  }

  lemma WitnessIsChecked()
    ensures forall p :: p in ToCheck(WITNESS, []) <==> p == "a/x" || p == "b"
  {
    WitnessIsSettled();
    forall p
      ensures p in ToCheck(WITNESS, []) <==> p == "a/x" || p == "b"
    {
      Checked(WITNESS, [], p);
    }
  }

  predicate IsLockFile(p: Path) {
    p == "a/x"
  }

  predicate Never(p: Path) {
    false
  }

  /** Once is not always enough: with the sensitive file in scope approved, the other file is the
    only one left and is outside the plan. */
  lemma OneApprovalIsNotAlwaysEnough(rules: Rules, plan: Plan)
    requires rules == Rules(IsLockFile, Never, Never, Never, {}) && plan == Plan(["a"], [])
    ensures AllFixed(Unique(WITNESS))
    ensures Decide(Assess(rules, plan, WITNESS, Approve(rules, plan, WITNESS, []))).Replan?
  {
    WitnessIsSettled();
    WitnessScope();
    WitnessIsChecked();
    ApprovalCanBringANewFinding(rules, plan, WITNESS, [], "a/x", "b");
  }
}
