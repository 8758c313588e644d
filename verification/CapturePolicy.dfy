/**
  The capture policy: which pattern decides, what is captured, and the explainer
  that must say the same.
 */
module CapturePolicy {
  import opened Layers
  import opened Paths
  import opened GlobMatcher

  datatype Pattern = Pattern(glob: string, negated: bool, directoryOnly: bool, anchored: bool)

  // `present` if the Project has a policy file, of `size` bytes.
  datatype Policy = Policy(present: bool, patterns: seq<Pattern>, size: nat)

  // ----- accepted globs -----

  predicate WellWritten(glob: string, i: nat)
    requires i <= |glob|
  {
    Never !in Pieces(glob, i)
  }

  /** validate_glob accepts exactly the globs without a malformed piece. */
  method ValidateGlob(glob: string) returns (valid: bool)
    ensures valid == WellWritten(glob, 0)
  {
    var index: nat := 0;
    while index < |glob|
      invariant index <= |glob| && WellWritten(glob, 0) == WellWritten(glob, index)
    {
      StepWritten(glob, index);
      if glob[index] == '\\' {
        if index + 1 == |glob| { return false; }
        index := index + 2;
      } else if glob[index] == '[' {
        var end := FindClassEnd(glob, index);
        if end.None? { return false; }
        index := end.value;
      } else {
        index := index + 1;
      }
    }
    valid := true;
  }

  lemma StepWritten(glob: string, i: nat)
    requires i < |glob|
    ensures glob[i] == '\\' ==> WellWritten(glob, i) == (i + 1 < |glob| && WellWritten(glob, i + 2))
    ensures glob[i] == '[' ==>
      WellWritten(glob, i) == (ClassEnd(glob, i).Some? && WellWritten(glob, ClassEnd(glob, i).value))
    ensures glob[i] != '\\' && glob[i] != '[' ==> WellWritten(glob, i) == WellWritten(glob, i + 1)
  {
    if glob[i] == '*' {
      AfterStars(glob, i);
      if i + 1 < |glob| && glob[i + 1] == '*' { AfterStars(glob, i + 1); }
    }
  }

  // What follows a run of stars decides, from anywhere in the run.
  lemma AfterStars(glob: string, i: nat)
    requires i < |glob| && glob[i] == '*'
    ensures WellWritten(glob, i) == WellWritten(glob, StarsEnd(glob, i))
  {
    var j := StarsEnd(glob, i + 1);
    assert j == StarsEnd(glob, i);
    if WholeSegment(glob, i, j) && j < |glob| {
      assert Pieces(glob, j) == [Exact('/')] + Pieces(glob, j + 1);
    }
  }

  // ----- deciding -----

  ghost predicate Applies(p: Pattern, relative: string, isDirectory: bool) {
    (p.directoryOnly ==> isDirectory) && GlobMatches(p.glob, if p.anchored then relative else FinalSegment(relative))
  }

  // The pattern that decides is the last one that applies.
  ghost predicate Decides(policy: Policy, i: nat, relative: string, isDirectory: bool) {
    && i < |policy.patterns| && Applies(policy.patterns[i], relative, isDirectory)
    && forall j | i < j < |policy.patterns| :: !Applies(policy.patterns[j], relative, isDirectory)
  }

  ghost predicate Excluded(policy: Policy, relative: string, isDirectory: bool) {
    exists i: nat :: Decides(policy, i, relative, isDirectory) && !policy.patterns[i].negated
  }

  lemma LastDecides(policy: Policy, i: nat, relative: string, isDirectory: bool)
    requires Decides(policy, i, relative, isDirectory)
    ensures Excluded(policy, relative, isDirectory) == !policy.patterns[i].negated
  {
    forall j: nat | Decides(policy, j, relative, isDirectory) ensures j == i {}
  }

  /** The last pattern that applies decides; without one nothing is excluded. */
  method Decide(policy: Policy, relative: string, isDirectory: bool) returns (excluded: bool, pattern: Option<nat>)
    ensures excluded == Excluded(policy, relative, isDirectory)
    ensures if pattern.Some? then Decides(policy, pattern.value, relative, isDirectory)
            else forall j | 0 <= j < |policy.patterns| :: !Applies(policy.patterns[j], relative, isDirectory)
  {
    excluded, pattern := false, None;
    for index := 0 to |policy.patterns|
      invariant pattern.Some? ==>
        pattern.value < index && Applies(policy.patterns[pattern.value], relative, isDirectory)
      invariant pattern.Some? ==> excluded == !policy.patterns[pattern.value].negated
      invariant pattern.None? ==> !excluded
      invariant forall j | (if pattern.Some? then pattern.value + 1 else 0) <= j < index ::
        !Applies(policy.patterns[j], relative, isDirectory)
    {
      var p := policy.patterns[index];
      if p.directoryOnly && !isDirectory { continue; }
      var matches, _ := MatchCaptureGlob(p.glob, if p.anchored then relative else FinalSegment(relative));
      if !matches { continue; }
      excluded, pattern := !p.negated, Some(index);
    }
    if pattern.Some? {
      assert Decides(policy, pattern.value, relative, isDirectory);
      LastDecides(policy, pattern.value, relative, isDirectory);
    }
  }

  // ----- Project trees -----

  datatype EntryKind = Regular | Directory | Symlink | Special

  datatype Entry = Entry(kind: EntryKind, device: nat, size: nat)

  type Project = map<Path, Entry>

  const TRIBIOS_DIR: Name := ".tribios"
  const POLICY_FILE: Name := ".tribiosignore"

  ghost predicate IsProject(project: Project) {
    && [] in project && project[[]].kind.Directory?
    && forall p | p in project && p != [] :: Clean(p) && Parent(p) in project && project[Parent(p)].kind.Directory?
  }

  // The policy that load_from_project reads there.
  ghost predicate IsPolicyOf(policy: Policy, project: Project) {
    && (policy.present <==> [POLICY_FILE] in project)
    && (policy.present ==> project[[POLICY_FILE]] == Entry(Regular, project[[POLICY_FILE]].device, policy.size))
  }

  predicate Metadata(p: Path) { p != [] && (p[0] == GIT_DIR || p[0] == TRIBIOS_DIR) }

  // Of a kind that can be captured, and on the Project's device.
  predicate Capturable(project: Project, p: Path)
    requires p in project && [] in project
  {
    !project[p].kind.Special? && project[p].device == project[[]].device
  }

  // Capturable all the way down from the root, Tribios's own rules aside.
  ghost predicate Reachable(project: Project, p: Path)
    requires [] in project
    decreases |p|
  {
    p == [] || (p in project && !Metadata(p) && Capturable(project, p) && Reachable(project, Parent(p)))
  }

  ghost predicate Captured(project: Project, policy: Policy, p: Path)
    requires [] in project
    decreases |p|
  {
    if p == [] then true
    else if p == [POLICY_FILE] then policy.present
    else
      && p in project && !Metadata(p) && Capturable(project, p)
      && !Excluded(policy, Join(p), project[p].kind.Directory?)
      && Captured(project, policy, Parent(p))
  }

  // ----- the explainer -----

  // Some proper ancestor is a symlink or on another device, or is excluded as a directory.
  ghost predicate CutOff(project: Project, policy: Policy, p: Path, n: nat)
    requires [] in project && n <= |p|
  {
    exists k :: 1 <= k < n && Cuts(project, policy, p[..k])
  }

  ghost predicate Cuts(project: Project, policy: Policy, ancestor: Path)
    requires [] in project
  {
    || (ancestor in project && (project[ancestor].kind.Symlink? || project[ancestor].device != project[[]].device))
    || Excluded(policy, Join(ancestor), true)
  }

  lemma CutOffNext(project: Project, policy: Policy, p: Path)
    requires [] in project && |p| >= 2
    ensures CutOff(project, policy, p, |p|) <==>
      CutOff(project, policy, Parent(p), |p| - 1) || Cuts(project, policy, Parent(p))
  {
    var q := Parent(p);
    hide Cuts;
    assert p[..|q|] == q;
    forall k | 1 <= k < |q| ensures q[..k] == p[..k] {}
    if CutOff(project, policy, p, |p|) {
      var k :| 1 <= k < |p| && Cuts(project, policy, p[..k]);
      if k < |q| { assert Cuts(project, policy, q[..k]); }
    }
    if CutOff(project, policy, q, |q|) {
      var k :| 1 <= k < |q| && Cuts(project, policy, q[..k]);
      assert Cuts(project, policy, p[..k]);
    }
    if Cuts(project, policy, q) { assert Cuts(project, policy, p[..|q|]); }
  }

  lemma {:induction false} CapturedIffNotCut(project: Project, policy: Policy, p: Path)
    requires IsProject(project) && IsPolicyOf(policy, project) && p in project && p != [] && p != [POLICY_FILE]
    ensures Captured(project, policy, p) <==>
      && !Metadata(p) && !CutOff(project, policy, p, |p|) && Capturable(project, p)
      && !Excluded(policy, Join(p), project[p].kind.Directory?)
    decreases |p|
  {
    hide Excluded;
    var q := Parent(p);
    if q != [] {
      assert q in project && project[q].kind.Directory?;
      CapturedIffNotCut(project, policy, q);
      CutOffNext(project, policy, p);
      hide CutOff;
    }
  }

  lemma FirstSlash(p: Path)
    requires Clean(p) && p != []
    ensures if |p| == 1 then Join(p) == p[0] else Join(p) == p[0] + "/" + Join(p[1..])
    ensures '/' !in p[0]
  {
    assert CleanName(p[0]);
    if |p| > 1 {
      JoinAppends([p[0]], p[1..]);
      assert [p[0]] + p[1..] == p;
    }
  }

  // The characters before and after the n-th ancestor of a path.
  lemma AncestorText(p: Path, n: nat)
    requires Clean(p) && 1 <= n < |p|
    ensures Join(p) == Join(p[..n]) + "/" + Join(p[n..])
  {
    hide Join;
    JoinAppends(p[..n], p[n..]);
    assert p[..n] + p[n..] == p;
  }

  // find('/') from just behind the n-th slash finds the end of ancestor n + 1.
  lemma NextAncestor(p: Path, n: nat, from: nat)
    requires Clean(p) && n < |p| && from == if n == 0 then 0 else |Join(p[..n])| + 1
    ensures from + |p[n]| <= |Join(p)| && Join(p)[from..from + |p[n]|] == p[n] && '/' !in p[n]
    ensures n + 1 == |p| ==> from + |p[n]| == |Join(p)|
    ensures n + 1 < |p| ==>
      from + |p[n]| < |Join(p)| && Join(p)[from + |p[n]|] == '/' && from + |p[n]| == |Join(p[..n + 1])|
    ensures n + 1 < |p| ==> Join(p)[..from + |p[n]|] == Join(p[..n + 1])
  {
    var tail := p[n..];
    FirstSlash(tail);
    if n > 0 { AncestorText(p, n); } else { assert tail == p; }
    assert Join(p)[from..] == Join(tail);
    if n + 1 < |p| {
      AncestorText(p, n + 1);
      assert p[..n + 1][..n] == p[..n] && p[..n + 1][n] == p[n];
    }
  }

  // What the explainer answers for a path.
  ghost predicate ExplainedOut(project: Project, policy: Policy, p: Path, asDirectory: bool)
    requires [] in project && p != []
  {
    if Metadata(p) then true
    else if p == [POLICY_FILE] then false
    else
      || CutOff(project, policy, p, |p|)
      || (p in project && !Capturable(project, p))
      || Excluded(policy, Join(p), if p in project then project[p].kind.Directory? else asDirectory)
  }

  /** For every path that exists, the explainer says exactly what the walk does. */
  lemma ExplainerAgrees(project: Project, policy: Policy, p: Path, asDirectory: bool)
    requires IsProject(project) && IsPolicyOf(policy, project) && p in project && p != []
    ensures ExplainedOut(project, policy, p, asDirectory) <==> !Captured(project, policy, p)
  {
    if p != [POLICY_FILE] { CapturedIffNotCut(project, policy, p); }
  }

  /** For a path that does not exist it says what it would if a directory, or else a file, stood there. */
  lemma MissingIsAsIfThere(project: Project, policy: Policy, p: Path, asDirectory: bool, any: bool)
    requires [] in project && p != [] && p !in project
    ensures var there := project[p := Entry(if asDirectory then Directory else Regular, project[[]].device, 0)];
            ExplainedOut(project, policy, p, asDirectory) <==> ExplainedOut(there, policy, p, any)
  {
    hide Excluded;
    var there := project[p := Entry(if asDirectory then Directory else Regular, project[[]].device, 0)];
    forall k | 1 <= k < |p| ensures Cuts(there, policy, p[..k]) <==> Cuts(project, policy, p[..k]) {
      assert p[..k] != p;
    }
  }

  /**
    What is said to be left out takes everything beneath it along, whether or not that exists;
    and a symlink does so even when the link itself is captured.
   */
  lemma OutsideStaysOutside(project: Project, policy: Policy, p: Path, k: nat, asDirectory: bool)
    requires [] in project && 1 <= k < |p| && p[..k] != [POLICY_FILE]
    requires p[..k] in project ==> project[p[..k]].kind.Directory? || project[p[..k]].kind.Symlink?
    requires ExplainedOut(project, policy, p[..k], true) || (p[..k] in project && project[p[..k]].kind.Symlink?)
    ensures ExplainedOut(project, policy, p, asDirectory)
  {
    var q := p[..k];
    if CutOff(project, policy, q, |q|) {
      var j :| 1 <= j < |q| && Cuts(project, policy, q[..j]);
      assert q[..j] == p[..j] && Cuts(project, policy, p[..j]);
    } else if !Metadata(q) {
      assert Cuts(project, policy, p[..k]);
    }
  }

  // One ancestor: is it a symlink, a mount, or excluded as a directory?
  method AncestorCuts(project: Project, policy: Policy, ancestor: string, ghost p: Path) returns (cuts: bool)
    requires [] in project && Clean(p) && ancestor == Join(p)
    ensures cuts == Cuts(project, policy, p)
  {
    hide Join, Excluded;
    ResolveJoin(p);
    var st := Lstat(project, ancestor);
    if st.Some? && st.value.kind.Symlink? { return true; }
    if st.Some? && st.value.device != project[[]].device { return true; }
    var pattern;
    cuts, pattern := Decide(policy, ancestor, true);
  }

  // The first ancestor that is cut off decides for everything beneath it.
  method AncestorsCut(project: Project, policy: Policy, relative: string, ghost p: Path) returns (cut: bool)
    requires [] in project && Clean(p) && p != [] && relative == Join(p)
    ensures cut == CutOff(project, policy, p, |p|)
  {
    hide Join, Cuts;
    NextAncestor(p, 0, 0);
    var slash := FindSlash(relative, 0);
    ghost var n, from := 0, 0;
    while slash.Some?
      invariant n < |p| && from == if n == 0 then 0 else |Join(p[..n])| + 1
      invariant slash == if n + 1 < |p| then Some(from + |p[n]|) else None
      invariant forall k | 1 <= k <= n :: !Cuts(project, policy, p[..k])
      decreases |p| - n
    {
      NextAncestor(p, n, from);
      cut := AncestorCuts(project, policy, relative[..slash.value], p[..n + 1]);
      if cut { return; }
      n, from := n + 1, slash.value + 1;
      NextAncestor(p, n, from);
      slash := FindSlash(relative, slash.value + 1);
    }
    cut := false;
  }

  // The path itself, once no ancestor is cut off.
  method PathItselfOut(project: Project, policy: Policy, relative: string, asDirectory: bool, ghost p: Path)
    returns (out: bool)
    requires [] in project && Clean(p) && p != [] && relative == Join(p)
    ensures out == ((p in project && !Capturable(project, p))
                    || Excluded(policy, Join(p), if p in project then project[p].kind.Directory? else asDirectory))
  {
    hide Join, Excluded;
    ResolveJoin(p);
    var isDirectory := asDirectory;
    var st := Lstat(project, relative);
    if st.Some? {
      if st.value.device != project[[]].device || st.value.kind.Special? { return true; }
      isDirectory := st.value.kind.Directory?;
    }
    var pattern;
    out, pattern := Decide(policy, relative, isDirectory);
  }

  method FirstSegment(relative: string, ghost p: Path) returns (first: string)
    requires Clean(p) && p != [] && relative == Join(p)
    ensures first == p[0]
  {
    NextAncestor(p, 0, 0);
    var slash := FindSlash(relative, 0);
    if slash.None? {
      assert relative[..|relative|] == relative;
      return relative;
    }
    return relative[..slash.value];
  }

  // explain_capture_decision: the answer is None for the root.
  method ExplainCaptureDecision(project: Project, policy: Policy, path: string) returns (excluded: Option<bool>)
    requires [] in project
    ensures excluded == if Resolve(path) == [] then None
                        else Some(ExplainedOut(project, policy, Resolve(path), path != "" && path[|path| - 1] == '/'))
  {
    hide Join, Excluded, Resolve, CutOff;
    ghost var p := Resolve(path);
    ResolveIsClean(path);
    JoinEmpty(p);
    var relative := NormalizeRelative(path);
    if relative == "" { return None; }
    var first := FirstSegment(relative, p);
    if first == GIT_DIR || first == TRIBIOS_DIR { return Some(true); }
    PolicyFileText(p);
    if relative == POLICY_FILE { return Some(false); }
    var cut := AncestorsCut(project, policy, relative, p);
    if cut { return Some(true); }
    var out := PathItselfOut(project, policy, relative, path != "" && path[|path| - 1] == '/', p);
    return Some(out);
  }

  lemma PolicyFileText(p: Path)
    requires Clean(p)
    ensures Join(p) == POLICY_FILE <==> p == [POLICY_FILE]
  {
    if Join(p) == POLICY_FILE { JoinInjective(p, [POLICY_FILE]); }
  }

  function Lstat(project: Project, relative: string): Option<Entry> {
    if Resolve(relative) in project then Some(project[Resolve(relative)]) else None
  }
}
