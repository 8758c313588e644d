/**
  The SQL pattern that selects the tombstones below a path.
 */
module LikePattern {
  import opened Layers
  import opened Journal
  import opened Paths

  // x LIKE pattern ESCAPE '\\', as SQLite defines it: % is any run of characters, _ is any one
  // character, ASCII letters match in either case.
  ghost predicate Like(pattern: string, text: string) {
    if pattern == "" then text == ""
    else if pattern[0] == '%' then exists k :: 0 <= k <= |text| && Like(pattern[1..], text[k..])
    else if pattern[0] == '_' then text != "" && Like(pattern[1..], text[1..])
    else if pattern[0] == '\\' then
      |pattern| > 1 && text != "" && FoldChar(pattern[1]) == FoldChar(text[0]) && Like(pattern[2..], text[1..])
    else text != "" && FoldChar(pattern[0]) == FoldChar(text[0]) && Like(pattern[1..], text[1..])
  }

  predicate Special(c: char) { c == '\\' || c == '%' || c == '_' }

  function Escaped(text: string): string {
    if text == "" then ""
    else (if Special(text[0]) then ['\\', text[0]] else [text[0]]) + Escaped(text[1..])
  }

  lemma {:induction false} EscapedAppends(a: string, b: string)
    ensures Escaped(a + b) == Escaped(a) + Escaped(b)
    decreases |a|
  {
    if a == "" {
      assert a + b == b;
    } else {
      assert (a + b)[1..] == a[1..] + b;
      EscapedAppends(a[1..], b);
    }
  }

  method EscapeLikeWildcards(text: string) returns (escaped: string)
    ensures escaped == Escaped(text)
  {
    escaped := "";
    for i := 0 to |text|
      invariant escaped == Escaped(text[..i])
    {
      assert text[..i + 1] == text[..i] + [text[i]];
      EscapedAppends(text[..i], [text[i]]);
      if Special(text[i]) { escaped := escaped + "\\"; }
      escaped := escaped + [text[i]];
    }
    assert text[..|text|] == text;
  }

  // Below t up to ASCII case, on strings.
  predicate FoldsBelow(text: string, t: string) {
    |t| < |text| && Fold(text[..|t|]) == Fold(t) && text[|t|] == '/'
  }

  /** The escaped text is a pattern for itself, up to case, whatever wildcards it holds. */
  lemma {:induction false} EscapedMatches(t: string, rest: string, text: string)
    ensures Like(Escaped(t) + rest, text)
       <==> |t| <= |text| && Fold(text[..|t|]) == Fold(t) && Like(rest, text[|t|..])
    decreases |t|
  {
    if t == "" {
      assert Escaped(t) + rest == rest && text[0..] == text && text[..0] == t;
    } else {
      var pattern := Escaped(t) + rest;
      EscapedMatches(t[1..], rest, if text == "" then "" else text[1..]);
      assert pattern == (if Special(t[0]) then ['\\', t[0]] else [t[0]]) + (Escaped(t[1..]) + rest);
      assert pattern[if Special(t[0]) then 2 else 1..] == Escaped(t[1..]) + rest;
      if text != "" {
        if |t| <= |text| {
          assert text[..|t|][1..] == text[1..][..|t| - 1];
          FoldHeads(text[..|t|], t);
          assert text[1..][|t| - 1..] == text[|t|..];
        }
      }
    }
  }

  lemma FoldHeads(a: string, b: string)
    requires a != "" && b != ""
    ensures Fold(a) == Fold(b) <==> FoldChar(a[0]) == FoldChar(b[0]) && Fold(a[1..]) == Fold(b[1..])
  {
    assert Fold(a) == [FoldChar(a[0])] + Fold(a[1..]);
    assert Fold(b) == [FoldChar(b[0])] + Fold(b[1..]);
    assert Fold(a)[1..] == Fold(a[1..]) && Fold(b)[1..] == Fold(b[1..]);
  }

  /** The pattern of remove_tombstones_under selects exactly what lies below the path up to ASCII case. */
  lemma PatternSelectsBelow(t: string, text: string)
    ensures Like(Escaped(t) + "/%", text) <==> FoldsBelow(text, t)
  {
    EscapedMatches(t, "/%", text);
    if |t| <= |text| {
      var rest := text[|t|..];
      assert "/%"[1..] == "%" && "%"[1..] == "";
      if rest != "" {
        assert rest[0] == text[|t|];
        assert rest[1..][|rest| - 1..] == "";
        assert Like("", rest[1..][|rest| - 1..]);
        assert Like("%", rest[1..]);
      }
    }
  }

  // ----- and on segments it is the deletion the journal model uses -----

  lemma {:induction false} FoldSplit(a: string, b: string)
    requires Fold(a) == Fold(b)
    ensures |Split(a)| == |Split(b)| && forall i | 0 <= i < |Split(a)| :: Fold(Split(a)[i]) == Fold(Split(b)[i])
    decreases |a|
  {
    assert |Fold(a)| == |a| && |Fold(b)| == |b|;
    if a != "" {
      var n := |a| - 1;
      assert Fold(a)[n] == FoldChar(a[n]) && Fold(b)[n] == FoldChar(b[n]);
      assert Fold(a[..n]) == Fold(a)[..n] == Fold(b)[..n] == Fold(b[..n]);
      FoldSplit(a[..n], b[..n]);
      var x, y := Split(a[..n]), Split(b[..n]);
      var k := |x| - 1;
      FoldAppends(x[k], [a[n]]);
      FoldAppends(y[k], [b[n]]);
      assert Fold([a[n]]) == Fold([b[n]]);
      hide Fold;
      if a[n] == '/' {
        assert Split(a) == x + [""] && Split(b) == y + [""];
      } else {
        assert Split(a) == x[..k] + [x[k] + [a[n]]] && Split(b) == y[..k] + [y[k] + [b[n]]];
      }
    }
  }

  lemma {:induction false} FoldJoin(p: Path, q: Path)
    requires |p| == |q| && forall i | 0 <= i < |q| :: Fold(p[i]) == Fold(q[i])
    ensures Fold(Join(p)) == Fold(Join(q))
    decreases |p|
  {
    if p != [] {
      var n := |p| - 1;
      FoldJoin(p[..n], q[..n]);
      FoldAppends(Join(p[..n]) + "/", p[n]);
      FoldAppends(Join(p[..n]), "/");
      FoldAppends(Join(q[..n]) + "/", q[n]);
      FoldAppends(Join(q[..n]), "/");
    }
  }

  lemma FoldAppends(a: string, b: string)
    ensures Fold(a + b) == Fold(a) + Fold(b)
  {
  }

  lemma FoldsBelowIsFoldedUnder(p: Path, q: Path)
    requires Clean(p) && Clean(q) && q != []
    ensures FoldsBelow(Join(p), Join(q)) <==> FoldedUnder(p, q)
  {
    if FoldsBelow(Join(p), Join(q)) { BelowGivesUnder(p, q); }
    if FoldedUnder(p, q) { UnderGivesBelow(p, q); }
  }

  lemma BelowGivesUnder(p: Path, q: Path)
    requires Clean(p) && Clean(q) && q != [] && FoldsBelow(Join(p), Join(q))
    ensures FoldedUnder(p, q)
  {
    hide Fold, Join, Split;
    var s, t := Join(p), Join(q);
    var a, b := s[..|t|], s[|t| + 1..];
    assert s == a + "/" + b;
    SplitAppends(a, b);
    FoldSplit(a, t);
    SplitJoin(q);
    JoinEmpty(p);
    SplitJoin(p);
    assert p == Split(a) + Split(b) && q == Split(t);
  }

  lemma UnderGivesBelow(p: Path, q: Path)
    requires q != [] && FoldedUnder(p, q)
    ensures FoldsBelow(Join(p), Join(q))
  {
    hide Join;
    var n := |q|;
    FoldJoin(p[..n], q);
    JoinAppends(p[..n], p[n..]);
    assert p[..n] + p[n..] == p;
    assert |Fold(Join(p[..n]))| == |Join(p[..n])| && |Fold(Join(q))| == |Join(q)|;
    assert Join(p)[..|Join(q)|] == Join(p[..n]);
  }

  /** The DELETE of finish_recovery_operation keeps a row exactly when DropStored does. */
  lemma DeleteIsDropStored(tombs: set<Path>, target: Path, t: Path)
    requires Clean(target) && target != [] && Clean(t) && t in tombs
    ensures t in DropStored(tombs, target) <==>
      !(Join(t) == Join(target) || Like(Escaped(Join(target)) + "/%", Join(t)))
  {
    PatternSelectsBelow(Join(target), Join(t));
    FoldsBelowIsFoldedUnder(t, target);
    if Join(t) == Join(target) { JoinInjective(t, target); }
  }
}
