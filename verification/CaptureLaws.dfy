/**
  What the policy means: which paths a pattern speaks of, which pattern decides, and what is captured.
 */
module CaptureLaws {
  import opened Layers
  import P = Paths
  import G = GlobMatcher
  import opened GlobLaws
  import opened CapturePolicy
  import opened BaseCapture

  // ----- which paths a pattern speaks of -----

  // The glob of a text without wildcards: every character behind a backslash.
  function Quoted(text: string): seq<Token> {
    if text == "" then [] else [Char(Letter(text[0], true))] + Quoted(text[1..])
  }

  lemma {:induction false} QuotedSplits(literal: string, parts: seq<string>, text: string)
    ensures Split(Quoted(literal), parts, text) ==> text == literal
    decreases |literal|
  {
    if literal != "" && Split(Quoted(literal), parts, text) {
      SplitHead(Quoted(literal), parts, text);
      QuotedSplits(literal[1..], parts[1..], text[|parts[0]|..]);
      assert text == parts[0] + text[1..] && parts[0] == [literal[0]];
    }
  }

  lemma {:induction false} QuotedWell(literal: string, opening: bool)
    ensures WellGlobbed(Quoted(literal), opening)
    decreases |literal|
  {
    if literal != "" { QuotedWell(literal[1..], literal[0] == '/'); }
  }

  lemma {:induction false} QuotedTakes(literal: string) returns (parts: seq<string>)
    ensures Split(Quoted(literal), parts, literal)
    decreases |literal|
  {
    parts := [];
    if literal != "" {
      parts := QuotedTakes(literal[1..]);
      parts := [[literal[0]]] + parts;
      assert literal[|parts[0]|..] == literal[1..];
      SplitHead(Quoted(literal), parts, literal);
    }
  }

  lemma QuotedMatches(literal: string, text: string)
    ensures G.GlobMatches(GlobText(Quoted(literal)), text) <==> text == literal
  {
    hide Split, G.GlobMatches, Quoted;
    QuotedWell(literal, true);
    GlobMeaning(Quoted(literal), text);
    if parts :| Split(Quoted(literal), parts, text) { QuotedSplits(literal, parts, text); }
    var parts := QuotedTakes(literal);
  }

  /** An anchored pattern speaks of paths from the root, any other one of last names, anywhere. */
  lemma PatternScope(p: Path, q: Path, n: Name, negated: bool, directoryOnly: bool, isDirectory: bool)
    requires P.Clean(p) && p != [] && P.Clean(q) && P.CleanName(n)
    ensures Applies(Pattern(GlobText(Quoted(P.Join(q))), negated, directoryOnly, true), P.Join(p), isDirectory)
       <==> p == q && (directoryOnly ==> isDirectory)
    ensures Applies(Pattern(GlobText(Quoted(n)), negated, directoryOnly, false), P.Join(p), isDirectory)
       <==> p[|p| - 1] == n && (directoryOnly ==> isDirectory)
  {
    hide P.Join, GlobText, Quoted, G.GlobMatches;
    QuotedMatches(P.Join(q), P.Join(p));
    if P.Join(p) == P.Join(q) { P.JoinInjective(p, q); }
    assert P.CleanName(p[|p| - 1]) && p == Child(Parent(p), p[|p| - 1]);
    P.StringsFollowSegments(Parent(p), p[|p| - 1]);
    QuotedMatches(n, p[|p| - 1]);
  }

  // ----- which pattern decides -----

  /** Each pattern overrules those before it, where it applies; without patterns nothing is excluded. */
  lemma LaterOverrules(policy: Policy, p: Pattern, relative: string, isDirectory: bool)
    ensures var longer := policy.(patterns := policy.patterns + [p]);
            Excluded(longer, relative, isDirectory)
            == if Applies(p, relative, isDirectory) then !p.negated else Excluded(policy, relative, isDirectory)
    ensures !Excluded(policy.(patterns := []), relative, isDirectory)
  {
    hide Applies;
    var longer, n := policy.(patterns := policy.patterns + [p]), |policy.patterns|;
    if Applies(p, relative, isDirectory) {
      assert Decides(longer, n, relative, isDirectory);
      LastDecides(longer, n, relative, isDirectory);
    } else {
      forall i: nat ensures Decides(longer, i, relative, isDirectory) <==> Decides(policy, i, relative, isDirectory) {
        assert forall j | 0 <= j < n :: longer.patterns[j] == policy.patterns[j];
      }
    }
  }

  // ----- what is captured -----

  // What every entry on the way to a captured one must be.
  ghost predicate Passes(project: Project, policy: Policy, q: Path)
    requires [] in project
  {
    && q in project && (project[q].kind.Regular? || project[q].kind.Directory? || project[q].kind.Symlink?)
    && project[q].device == project[[]].device && !Excluded(policy, P.Join(q), project[q].kind.Directory?)
  }

  /**
    Captured is what lies outside .git and .tribios at the root and, with every ancestor, is a file,
    directory or symlink on the root's device that the policy does not exclude.
   */
  lemma {:induction false} CapturedIffAllPass(project: Project, policy: Policy, p: Path)
    requires IsProject(project) && IsPolicyOf(policy, project) && p in project && p != [] && p != [POLICY_FILE]
    ensures Captured(project, policy, p) <==>
      p[0] != ".git" && p[0] != ".tribios" && forall k | 1 <= k <= |p| :: Passes(project, policy, p[..k])
    decreases |p|
  {
    hide Excluded;
    var q := Parent(p);
    assert p[..|p|] == p;
    if q != [] {
      assert q in project && project[q].kind.Directory?;
      CapturedIffAllPass(project, policy, q);
      forall k | 1 <= k < |p| ensures q[..k] == p[..k] {}
    }
    hide Captured;
    CapturedStep(project, policy, p);
  }

  lemma CapturedStep(project: Project, policy: Policy, p: Path)
    requires [] in project && p in project && p != [] && p != [POLICY_FILE]
    ensures Captured(project, policy, p) <==>
      && p[0] != ".git" && p[0] != ".tribios" && Passes(project, policy, p) && Captured(project, policy, Parent(p))
  {
    hide Excluded;
  }

  /** Only files have a size in the accounts. */
  lemma FilesWeigh(project: Project, s: set<Path>, p: Path)
    requires p !in s && p in project
    ensures Total(project, s + {p}) == Total(project, s) + if project[p].kind.Regular? then project[p].size else 0
    ensures Total(project, {}) == 0
  {
    TotalAdd(project, s, p);
  }
}
