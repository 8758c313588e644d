/**
  Staged entries: the plan of a mutation, and how copying a visible subtree
  child by child amounts to copying the whole subtree.
 */
module Staging {
  import opened Layers
  import opened PlainTree
  import opened OverlayLaws

  datatype Plan =
    | NewEntry(node: Node)
    | CopyOf(relative: Path)
    | CopyAndEdit(relative: Path, edit: Edit, through: Option<Errno>)

  // How preparing the stage ends, and the tree it leaves.
  function PlanStatus(plan: Plan, v: Tree, umask: Mode): Option<Errno>
    requires !plan.NewEntry? ==> plan.relative in v
  {
    match plan
    case NewEntry(_) => None
    case CopyOf(_) => None
    case CopyAndEdit(r, e, through) => EditNode(CopiedNode(v[r], umask), e, through).0
  }

  function Planned(plan: Plan, v: Tree, umask: Mode): Tree
    requires !plan.NewEntry? ==> plan.relative in v
  {
    match plan
    case NewEntry(n) => map[[] := n]
    case CopyOf(r) => Copied(Subtree(v, r), umask)
    case CopyAndEdit(r, e, through) =>
      Copied(Subtree(v, r), umask)[[] := EditNode(CopiedNode(v[r], umask), e, through).1]
  }

  // The root of s and those of its subtrees whose first name is in `done`.
  function Through<T>(s: map<Path, T>, done: set<Name>): map<Path, T> {
    map q | q in s && (q == [] || q[0] in done) :: s[q]
  }

  // sub is the part of s below the name n.
  ghost predicate IsChildTree<T(!new)>(s: map<Path, T>, n: Name, sub: map<Path, T>) {
    && (forall q {:trigger q in sub} :: [n] + q in s <==> q in sub)
    && (forall q {:trigger sub[q]} | q in sub :: s[[n] + q] == sub[q])
  }

  lemma ThroughNextAt<T(!new)>(m: map<Path, T>, at: Path, s: map<Path, T>, done: set<Name>, n: Name, sub: map<Path, T>,
                               q: Path)
    requires IsChildTree(s, n, sub)
    ensures var l, r := Graft(Graft(m, at, Through(s, done)), Child(at, n), sub), Graft(m, at, Through(s, done + {n}));
            (q in l <==> q in r) && (q in l ==> l[q] == r[q])
  {
    if AtOrUnder(q, at) {
      var suffix := q[|at|..];
      if AtOrUnder(q, Child(at, n)) {
        SuffixBelow(q, at, n);
        assert q[|at| + 1..] in sub <==> suffix in s;
      } else if suffix != [] {
        SuffixElsewhere(q, at, n);
      }
    } else if AtOrUnder(q, Child(at, n)) {
      UnderTransitive(q, Child(at, n), at);
    }
  }

  lemma SuffixBelow(q: Path, at: Path, n: Name)
    requires AtOrUnder(q, Child(at, n))
    ensures q[|at|..] == [n] + q[|at| + 1..] && q[|Child(at, n)|..] == q[|at| + 1..]
  {
  }

  lemma SuffixElsewhere(q: Path, at: Path, n: Name)
    requires AtOrUnder(q, at) && q != at && !AtOrUnder(q, Child(at, n))
    ensures q[|at|..] != [] && q[|at|..][0] != n
  {
  }

  lemma ThroughNext<T(!new)>(m: map<Path, T>, at: Path, s: map<Path, T>, done: set<Name>, n: Name, sub: map<Path, T>)
    requires IsChildTree(s, n, sub)
    ensures Graft(Graft(m, at, Through(s, done)), Child(at, n), sub) == Graft(m, at, Through(s, done + {n}))
  {
    forall q { ThroughNextAt(m, at, s, done, n, sub, q); }
    MapsEqual(Graft(Graft(m, at, Through(s, done)), Child(at, n), sub), Graft(m, at, Through(s, done + {n})));
  }

  lemma MapsEqual<T>(a: map<Path, T>, b: map<Path, T>)
    requires forall q :: q in a <==> q in b
    requires forall q {:trigger a[q]} | q in a :: a[q] == b[q]
    ensures a == b
  {
  }

  lemma ThroughAll<T>(s: map<Path, T>, done: set<Name>)
    requires forall q | q in s && q != [] :: q[0] in done
    ensures Through(s, done) == s
  {
  }

  lemma GraftLeaf<T>(m: map<Path, T>, p: Path, x: T)
    requires !HasChild(m, p)
    ensures Graft(m, p, map[[] := x]) == m[p := x]
  {
    var g, w := Graft(m, p, map[[] := x]), m[p := x];
    GraftRoot(m, p, map[[] := x]);
    forall q ensures q in g <==> q in w
      ensures q in g ==> g[q] == w[q]
    {
      if AtOrUnder(q, p) && q != p {
        assert Under(q, p) && q[|p|..] != [];
      }
    }
  }

  lemma CopiedAt(v: Tree, p: Path, umask: Mode, q: Path)
    ensures q in Copied(Subtree(v, p), umask) <==> p + q in v
    ensures p + q in v ==> Copied(Subtree(v, p), umask)[q] == CopiedNode(v[p + q], umask)
  {
  }

  lemma ChildAssoc(p: Path, n: Name, q: Path)
    ensures p + ([n] + q) == Child(p, n) + q
  {
  }

  lemma CopiedChild(v: Tree, p: Path, n: Name, umask: Mode)
    ensures IsChildTree(Copied(Subtree(v, p), umask), n, Copied(Subtree(v, Child(p, n)), umask))
  {
    forall q ensures [n] + q in Copied(Subtree(v, p), umask) <==> q in Copied(Subtree(v, Child(p, n)), umask)
      ensures q in Copied(Subtree(v, Child(p, n)), umask) ==>
        Copied(Subtree(v, p), umask)[[n] + q] == Copied(Subtree(v, Child(p, n)), umask)[q]
    {
      ChildAssoc(p, n, q);
      var nq := [n] + q;
      CopiedAt(v, p, umask, nq);
      CopiedAt(v, Child(p, n), umask, q);
    }
  }

  lemma PlannedWellFormed(plan: Plan, v: Tree, umask: Mode, stage: Layer)
    requires IsTree(v) && !plan.NewEntry? ==> plan.relative in v
    requires IsTree(v) && Strip(stage) == Planned(plan, v, umask)
    ensures WellFormedStage(stage)
  {
    assert forall q :: q in stage <==> q in Strip(stage);
    if !plan.NewEntry? {
      var r := plan.relative;
      assert r + [] == r;
      forall p, q | p in stage && Under(p, q) ensures q in stage && stage[q].node.Dir? {
        CopiedAt(v, r, umask, p);
        CopiedAt(v, r, umask, q);
        UnderSuffix(r, p, q);
        assert Strip(stage)[q] == stage[q].node;
      }
      CopiedAt(v, r, umask, []);
    }
  }

  lemma UnderSuffix(r: Path, p: Path, q: Path)
    requires Under(p, q)
    ensures Under(r + p, r + q)
  {
  }
}
