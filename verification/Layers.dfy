/**
  Paths, layers and the merged view of one Workspace.

  A layer is one directory tree on disk: the immutable Base state, a Workspace's
  sparse upper tree, or a staged entry.  A path is the list of segments of a
  normalised relative path (module Paths connects the two).
 */
module Layers {

  datatype Option<+T> = None | Some(value: T)

  type Byte = x: int | 0 <= x < 256
  type Mode = bv12            // the permission bits, st_mode & 07777
  type Name = string
  type Path = seq<Name>

  const GIT_DIR: Name := ".git"

  datatype Errno = ENOENT | EEXIST | ENOTDIR | EISDIR | ENOTEMPTY | EINVAL | EBUSY | EIO | Foreign(code: nat)

  datatype Node = Dir(mode: Mode) | File(mode: Mode, data: seq<Byte>) | Link(target: string)

  // A node together with the backing inode number the file system gave it.
  datatype Inode = Inode(number: nat, node: Node)

  type Layer = map<Path, Inode>
  type Tree = map<Path, Node>

  predicate Under(p: Path, q: Path) { q < p }

  predicate AtOrUnder(p: Path, q: Path) { q <= p }

  function Parent(p: Path): Path
    requires p != []
  {
    p[..|p| - 1]
  }

  function Child(p: Path, n: Name): (c: Path)
    ensures Under(c, p) && Parent(c) == p
  {
    p + [n]
  }

  ghost predicate WellFormed(l: Layer) {
    && [] in l && l[[]].node.Dir?
    && (forall p, q {:trigger Under(p, q)} | p in l && Under(p, q) :: q in l && l[q].node.Dir?)
  }

  ghost predicate IsTree(v: Tree) {
    && [] in v && v[[]].Dir?
    && (forall p, q {:trigger Under(p, q)} | p in v && Under(p, q) :: q in v && v[q].Dir?)
  }

  function Strip(l: Layer): Tree {
    map p | p in l :: l[p].node
  }

  // ----- operations on any path-keyed map -----

  predicate HasChild<T>(m: map<Path, T>, p: Path) {
    exists q | q in m :: Under(q, p)
  }

  /** Everything at or under p is gone. */
  function Prune<T>(m: map<Path, T>, p: Path): map<Path, T> {
    map q | q in m && !AtOrUnder(q, p) :: m[q]
  }

  /** The subtree at p, re-rooted. */
  function Subtree<T>(m: map<Path, T>, p: Path): (s: map<Path, T>)
    ensures forall q {:trigger q in s} :: q in s <==> p + q in m
    ensures forall q {:trigger s[q]} :: q in s ==> s[q] == m[p + q]
  {
    var keys := set q | q in m && AtOrUnder(q, p) :: q[|p|..];
    assert forall q | p + q in m :: q in keys by {
      forall q | p + q in m ensures q in keys {
        assert AtOrUnder(p + q, p) && (p + q)[|p|..] == q;
      }
    }
    assert forall q | q in keys :: p + q in m by {
      forall q | q in keys ensures p + q in m {
        var r :| r in m && AtOrUnder(r, p) && q == r[|p|..];
        assert p + q == r;
      }
    }
    map q | q in keys :: m[p + q]
  }

  /** m with everything at or under p replaced by the tree s. */
  function Graft<T>(m: map<Path, T>, p: Path, s: map<Path, T>): (g: map<Path, T>)
    ensures forall q {:trigger q in g} :: q in g <==> if AtOrUnder(q, p) then q[|p|..] in s else q in m
    ensures forall q {:trigger g[q]} :: q in g ==> g[q] == if AtOrUnder(q, p) then s[q[|p|..]] else m[q]
  {
    var placed := set q | q in s :: p + q;
    assert forall q | AtOrUnder(q, p) && q[|p|..] in s :: q in placed by {
      forall q | AtOrUnder(q, p) && q[|p|..] in s ensures q in placed {
        assert p + q[|p|..] == q;
      }
    }
    map q | q in m.Keys + placed && (if AtOrUnder(q, p) then q[|p|..] in s else q in m)
      :: if AtOrUnder(q, p) then s[q[|p|..]] else m[q]
  }

  // Some entries are gone.
  ghost predicate Shrunk<T(!new)>(a: map<Path, T>, b: map<Path, T>) {
    forall q {:trigger q in b} | q in b :: q in a && a[q] == b[q]
  }

  lemma GraftRoot<T>(m: map<Path, T>, p: Path, s: map<Path, T>)
    requires [] in s
    ensures p in Graft(m, p, s) && Graft(m, p, s)[p] == s[[]]
  {
    assert AtOrUnder(p, p) && p[|p|..] == [];
  }

  lemma UnderTransitive(a: Path, b: Path, c: Path)
    requires AtOrUnder(a, b) && AtOrUnder(b, c)
    ensures AtOrUnder(a, c)
  {
  }

  lemma UnderChain(p: Path, q: Path, r: Path)
    requires AtOrUnder(p, q) && AtOrUnder(p, r)
    ensures AtOrUnder(q, r) || AtOrUnder(r, q)
  {
  }

  // remove_all can always find an entry to remove next.
  lemma LeafAtOrUnder<T>(m: map<Path, T>, p: Path)
    requires exists q :: q in m && AtOrUnder(q, p)
    ensures exists q :: q in m && AtOrUnder(q, p) && !HasChild(m, q)
  {
    var q :| q in m && AtOrUnder(q, p);
    DeepestFrom(m, q, |set r | r in m && Under(r, q)|);
    var r :| r in m && AtOrUnder(r, q) && !HasChild(m, r);
    UnderTransitive(r, q, p);
  }

  lemma DeepestFrom<T>(m: map<Path, T>, q: Path, n: nat)
    requires q in m && |set r | r in m && Under(r, q)| <= n
    ensures exists r :: r in m && AtOrUnder(r, q) && !HasChild(m, r)
    decreases n
  {
    var below := set r | r in m && Under(r, q);
    if below == {} {
      assert AtOrUnder(q, q);
      assert forall s | s in m :: Under(s, q) ==> s in below;
    } else {
      var r :| r in below;
      var below' := set s | s in m && Under(s, r);
      assert below' < below by {
        forall s | s in below' ensures s in below { assert Under(s, q); }
        assert r !in below';
      }
      SubsetSmaller(below', below);
      DeepestFrom(m, r, n - 1);
      var s :| s in m && AtOrUnder(s, r) && !HasChild(m, s);
      UnderTransitive(s, r, q);
    }
  }

  lemma SubsetSmaller<T>(a: set<T>, b: set<T>)
    requires a < b
    ensures |a| < |b|
  {
    assert b == a + (b - a);
    assert a !! (b - a);
    assert b - a != {};
  }

  // ----- the merged view -----

  predicate Unhidden(tombs: set<Path>, p: Path) {
    forall t | t in tombs :: t == [] || !AtOrUnder(p, t)
  }

  datatype Overlay = Overlay(base: Layer, upper: Layer, tombs: set<Path>) {

    // The upper layer wins; otherwise a Base entry shows unless a tombstone hides it.
    function Lookup(p: Path): Option<Inode> {
      if p in upper then Some(upper[p])
      else if Unhidden(tombs, p) && p in base then Some(base[p])
      else None
    }

    function View(): Tree {
      map p | p in upper.Keys + base.Keys && Lookup(p).Some? :: Lookup(p).value.node
    }

    // An upper non-directory never uncovers Base entries beneath it.
    ghost predicate Sound() {
      && WellFormed(base) && WellFormed(upper)
      && [] !in tombs
      && forall p, q {:trigger Under(q, p)} | p in upper && !upper[p].node.Dir? && Under(q, p) && q in base ::
           !Unhidden(tombs, q)
    }
  }

  lemma ViewAt(o: Overlay, p: Path)
    ensures p in o.View() <==> o.Lookup(p).Some?
    ensures p in o.View() ==> o.View()[p] == o.Lookup(p).value.node
  {
  }

  lemma HiddenBelow(tombs: set<Path>, p: Path, q: Path)
    requires AtOrUnder(p, q) && Unhidden(tombs, p)
    ensures Unhidden(tombs, q)
  {
    forall t | t in tombs ensures t == [] || !AtOrUnder(q, t) {
      if AtOrUnder(q, t) { UnderTransitive(p, q, t); }
    }
  }

  /** Looking up paths behaves like one directory tree. */
  lemma ViewIsTree(o: Overlay)
    requires o.Sound()
    ensures IsTree(o.View())
  {
    var v := o.View();
    forall p, q | p in v && Under(p, q) ensures q in v && v[q].Dir? {
      ViewAt(o, p);
      if p !in o.upper {
        HiddenBelow(o.tombs, p, q);
      }
    }
  }
}
