/**
  Relative paths as strings: normalisation, and how the string form of a path
  corresponds to its segments.
 */
module Paths {
  import opened Layers

  // ----- splitting at '/' -----

  // The segments read so far, after one more character.
  function Grow(parts: seq<string>, c: char): (r: seq<string>)
    requires parts != []
    ensures r != []
  {
    var n := |parts| - 1;
    if c == '/' then parts + [""] else parts[..n] + [parts[n] + [c]]
  }

  function Split(s: string): (r: seq<string>)
    ensures r != [] && forall i | 0 <= i < |r| :: '/' !in r[i]
  {
    if s == "" then [""] else Grow(Split(s[..|s| - 1]), s[|s| - 1])
  }

  function Join(p: Path): string {
    if p == [] then "" else if |p| == 1 then p[0] else Join(p[..|p| - 1]) + "/" + p[|p| - 1]
  }

  // ----- resolving segments -----

  function Push(stack: Path, segment: string): Path {
    if segment == ".." then (if stack == [] then [] else stack[..|stack| - 1])
    else if segment == "" || segment == "." then stack
    else stack + [segment]
  }

  function Walk(stack: Path, segments: seq<string>): Path {
    if segments == [] then stack
    else Push(Walk(stack, segments[..|segments| - 1]), segments[|segments| - 1])
  }

  // Where a path leads, starting at the view root.
  function Resolve(s: string): Path {
    Walk([], Split(s))
  }

  predicate CleanName(n: Name) {
    n != "" && n != "." && n != ".." && '/' !in n
  }

  predicate Clean(p: Path) {
    forall i | 0 <= i < |p| :: CleanName(p[i])
  }

  // ----- laws -----

  /** What normalisation yields has no empty, "." or ".." segment. */
  lemma {:induction false} WalkIsClean(stack: Path, segments: seq<string>)
    requires Clean(stack) && forall i | 0 <= i < |segments| :: '/' !in segments[i]
    ensures Clean(Walk(stack, segments))
    decreases |segments|
  {
    if segments != [] {
      WalkIsClean(stack, segments[..|segments| - 1]);
    }
  }

  lemma {:induction false} WalkAppends(stack: Path, a: seq<string>, b: seq<string>)
    ensures Walk(stack, a + b) == Walk(Walk(stack, a), b)
    decreases |b|
  {
    if b == [] {
      assert a + b == a;
    } else {
      var n := |b| - 1;
      assert (a + b)[..|a + b| - 1] == a + b[..n];
      WalkAppends(stack, a, b[..n]);
    }
  }

  lemma {:induction false} WalkClean(stack: Path, p: Path)
    requires Clean(p)
    ensures Walk(stack, p) == stack + p
    decreases |p|
  {
    if p != [] {
      var n := |p| - 1;
      assert CleanName(p[n]);
      WalkClean(stack, p[..n]);
      assert stack + p[..n] + [p[n]] == stack + p;
    }
  }

  lemma GrowAppends(x: seq<string>, y: seq<string>, c: char)
    requires y != []
    ensures Grow(x + y, c) == x + Grow(y, c)
  {
    var n := |y| - 1;
    assert (x + y)[..|x + y| - 1] == x + y[..n] && (x + y)[|x + y| - 1] == y[n];
  }

  lemma {:induction false} SplitAppends(a: string, b: string)
    ensures Split(a + "/" + b) == Split(a) + Split(b)
    decreases |b|
  {
    var s, n := a + "/" + b, |a + "/" + b| - 1;
    assert Split(s) == Grow(Split(s[..n]), s[n]);
    if b == "" {
      assert s[..n] == a;
    } else {
      var m := |b| - 1;
      assert Split(b) == Grow(Split(b[..m]), b[m]);
      hide Split, Grow;
      assert s[..n] == a + "/" + b[..m] && s[n] == b[m];
      SplitAppends(a, b[..m]);
      GrowAppends(Split(a), Split(b[..m]), b[m]);
    }
  }

  lemma {:induction false} SplitName(n: string)
    requires '/' !in n
    ensures Split(n) == [n]
    decreases |n|
  {
    if n != "" {
      SplitName(n[..|n| - 1]);
      assert n[..|n| - 1] + [n[|n| - 1]] == n;
    }
  }

  lemma {:induction false} SplitJoin(p: Path)
    requires Clean(p) && p != []
    ensures Split(Join(p)) == p
    decreases |p|
  {
    hide Split;
    var n := |p| - 1;
    assert CleanName(p[n]);
    SplitName(p[n]);
    assert Join(p) == if n == 0 then p[0] else Join(p[..n]) + "/" + p[n];
    hide Join;
    if n == 0 {
      assert p == [p[0]];
    } else {
      SplitJoin(p[..n]);
      SplitAppends(Join(p[..n]), p[n]);
      assert p[..n] + [p[n]] == p;
    }
  }

  /** Segments written out and resolved again are the same segments. */
  lemma ResolveJoin(p: Path)
    requires Clean(p)
    ensures Resolve(Join(p)) == p
  {
    if p != [] {
      SplitJoin(p);
      WalkClean([], p);
    }
  }

  lemma ResolveIsClean(s: string)
    ensures Clean(Resolve(s))
  {
    WalkIsClean([], Split(s));
  }

  /** Normalising twice is normalising once. */
  lemma NormalizeIdempotent(s: string)
    ensures Join(Resolve(Join(Resolve(s)))) == Join(Resolve(s))
  {
    ResolveIsClean(s);
    ResolveJoin(Resolve(s));
  }

  /** A string is its own normal form exactly when it spells clean segments. */
  lemma NormalFormIffClean(s: string)
    ensures Join(Resolve(s)) == s <==> exists p :: Clean(p) && Join(p) == s
  {
    ResolveIsClean(s);
    if p :| Clean(p) && Join(p) == s { ResolveJoin(p); }
  }

  /** Resolving a first and then b beneath it is resolving a/b. */
  lemma NormalizeComposes(a: string, b: string)
    ensures Resolve(Join(Resolve(a)) + "/" + b) == Resolve(a + "/" + b)
    ensures Join(Resolve(Join(Resolve(a)) + "/" + b)) == Join(Resolve(a + "/" + b))
  {
    var p := Resolve(a);
    SplitAppends(Join(p), b);
    SplitAppends(a, b);
    WalkAppends([], Split(Join(p)), Split(b));
    WalkAppends([], Split(a), Split(b));
    ResolveIsClean(a);
    ResolveJoin(p);
  }

  lemma OneMoreSegment(s: string, n: string)
    requires '/' !in n
    ensures Resolve(s + "/" + n) == Push(Resolve(s), n)
  {
    SplitAppends(s, n);
    SplitName(n);
    WalkAppends([], Split(s), [n]);
  }

  /**
    Where each path leads: "..", which never leaves the view root, goes to the parent, "." and an empty
    segment stay, and any other segment goes to the child of that name.
   */
  lemma ResolveLaws(s: string, n: Name)
    requires CleanName(n)
    ensures Resolve(s + "/..") == (if Resolve(s) == [] then [] else Parent(Resolve(s)))
    ensures Resolve(s + "/.") == Resolve(s + "/") == Resolve(s)
    ensures Resolve(s + "/" + n) == Child(Resolve(s), n)
    ensures Resolve("..") == Resolve(".") == Resolve("") == [] && Resolve(n) == [n]
  {
    hide Resolve;
    assert s + "/.." == s + "/" + "..";
    assert s + "/." == s + "/" + ".";
    assert s + "/" == s + "/" + "";
    OneMoreSegment(s, "..");
    OneMoreSegment(s, ".");
    OneMoreSegment(s, "");
    OneMoreSegment(s, n);
    OneSegment("..");
    OneSegment(".");
    OneSegment("");
    OneSegment(n);
  }

  lemma OneSegment(n: string)
    requires '/' !in n
    ensures Resolve(n) == Push([], n)
  {
    SplitName(n);
    assert [n][..0] == [];
  }

  lemma JoinInjective(p: Path, q: Path)
    requires Clean(p) && Clean(q) && Join(p) == Join(q)
    ensures p == q
  {
    ResolveJoin(p);
    ResolveJoin(q);
  }

  lemma JoinEmpty(p: Path)
    requires Clean(p)
    ensures Join(p) == "" <==> p == []
  {
    if Join(p) == "" { ResolveJoin(p); ResolveJoin([]); }
  }

  lemma {:induction false} JoinAppends(p: Path, q: Path)
    requires p != [] && q != []
    ensures Join(p + q) == Join(p) + "/" + Join(q)
    decreases |q|
  {
    var n := |q| - 1;
    assert (p + q)[..|p + q| - 1] == p + q[..n];
    if n == 0 {
      assert p + q[..n] == p;
    } else {
      JoinAppends(p, q[..n]);
    }
  }

  /** The code's test for "below", a prefix test on strings, is Under on segments. */
  lemma PrefixIsUnder(p: Path, q: Path)
    requires Clean(p) && Clean(q) && q != []
    ensures Join(q) + "/" <= Join(p) <==> Under(p, q)
  {
    if Under(p, q) {
      JoinAppends(q, p[|q|..]);
      assert q + p[|q|..] == p;
    }
    if Join(q) + "/" <= Join(p) {
      var b := Join(p)[|Join(q)| + 1..];
      assert Join(p) == Join(q) + "/" + b;
      SplitAppends(Join(q), b);
      SplitJoin(q);
      SplitJoin(p);
      assert |Split(b)| > 0;
    }
  }

  // ----- the functions of the code -----

  /** normalize_relative: segments are pushed and popped as the characters go by. */
  method NormalizeRelative(path: string) returns (normalized: string)
    ensures normalized == Join(Resolve(path))
  {
    var segments: seq<string>, segment := [], "";
    for i := 0 to |path|
      invariant Split(path[..i])[|Split(path[..i])| - 1] == segment
      invariant segments == Walk([], Split(path[..i])[..|Split(path[..i])| - 1])
    {
      assert path[..i + 1][..i] == path[..i];
      if path[i] == '/' {
        segments := TakeSegment(segments, segment);
        segment := "";
        assert Split(path[..i + 1])[..|Split(path[..i + 1])| - 1] == Split(path[..i]);
      } else {
        segment := segment + [path[i]];
        assert Split(path[..i + 1])[..|Split(path[..i + 1])| - 1] == Split(path[..i])[..|Split(path[..i])| - 1];
      }
    }
    assert path[..|path|] == path;
    segments := TakeSegment(segments, segment);

    ResolveIsClean(path);
    normalized := "";
    for k := 0 to |segments|
      invariant normalized == Join(segments[..k])
    {
      assert CleanName(segments[k]);
      assert segments[..k + 1][..k] == segments[..k];
      JoinEmpty(segments[..k]);
      if normalized != "" { normalized := normalized + "/"; }
      normalized := normalized + segments[k];
    }
    assert segments[..|segments|] == segments;
  }

  method TakeSegment(segments: seq<string>, segment: string) returns (taken: seq<string>)
    ensures taken == Push(segments, segment)
  {
    taken := segments;
    if segment == ".." {
      if segments != [] { taken := segments[..|segments| - 1]; }
    } else if segment != "" && segment != "." {
      taken := segments + [segment];
    }
  }

  // The last '/' of s, if any.
  function LastSlash(s: string): (r: Option<nat>)
    ensures r.Some? ==> r.value < |s| && s[r.value] == '/' && forall i | r.value < i < |s| :: s[i] != '/'
    ensures r.None? <==> '/' !in s
  {
    if s == "" then None
    else if s[|s| - 1] == '/' then Some(|s| - 1) else LastSlash(s[..|s| - 1])
  }

  function ParentOf(relative: string): string {
    match LastSlash(relative)
    case None => ""
    case Some(slash) => relative[..slash]
  }

  function FinalSegment(relative: string): string {
    match LastSlash(relative)
    case None => relative
    case Some(slash) => relative[slash + 1..]
  }

  function JoinRelative(parent: string, name: string): string {
    if parent == "" then name else parent + "/" + name
  }

  lemma {:induction false} LastSlashAfter(a: string, n: string)
    requires '/' !in n
    ensures LastSlash(a + "/" + n) == Some(|a|)
    decreases |n|
  {
    var s := a + "/" + n;
    if n == "" {
      assert s[|s| - 1] == '/';
    } else {
      var shorter := n[..|n| - 1];
      assert s[|s| - 1] == n[|n| - 1];
      assert s[..|s| - 1] == a + "/" + shorter;
      LastSlashAfter(a, shorter);
    }
  }

  /** parent_of, final_segment and join_relative on strings are Parent, last segment and Child on segments. */
  lemma StringsFollowSegments(p: Path, n: Name)
    requires Clean(p) && CleanName(n)
    ensures JoinRelative(Join(p), n) == Join(Child(p, n))
    ensures ParentOf(Join(Child(p, n))) == Join(p) && FinalSegment(Join(Child(p, n))) == n
  {
    JoinEmpty(p);
    if p != [] {
      LastSlashAfter(Join(p), n);
      assert (Join(p) + "/" + n)[|Join(p)| + 1..] == n;
    }
  }
}
