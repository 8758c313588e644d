/**
  What each change of the upper tree and the tombstones does to the merged view.
 */
module OverlayLaws {
  import opened Layers
  import opened PlainTree

  // What open leaves of a mode.
  function Masked(m: Mode, umask: Mode): Mode { m & !umask }

  // What mkdir leaves of it: set-user-ID and set-group-ID go too, and nothing sets the mode afterwards.
  function MaskedDir(m: Mode, umask: Mode): Mode { m & !umask & 0x3FF }

  predicate Stable(m: Mode, umask: Mode) { MaskedDir(m, umask) == m }

  function CopiedNode(n: Node, umask: Mode): Node {
    if n.Dir? then Dir(MaskedDir(n.mode, umask)) else n
  }

  // The tree that materialising a visible subtree produces.
  function Copied(v: Tree, umask: Mode): Tree {
    map p | p in v :: CopiedNode(v[p], umask)
  }

  // v with the directories among ds made anew by mkdir.
  function Remade(v: Tree, ds: set<Path>, umask: Mode): Tree {
    map p | p in v :: if p in ds then CopiedNode(v[p], umask) else v[p]
  }

  // The paths of v at and under p.
  function Within(v: Tree, p: Path): set<Path> { set q | q in v && AtOrUnder(q, p) }

  // Only paths between p and the root.
  ghost predicate OnTheWay(ds: set<Path>, p: Path) { forall d | d in ds :: Under(p, d) }

  /** Making directories anew is invisible if and only if mkdir keeps the mode of each. */
  lemma RemadeIff(v: Tree, ds: set<Path>, umask: Mode)
    ensures Remade(v, ds, umask) == v <==> forall d | d in ds && d in v && v[d].Dir? :: Stable(v[d].mode, umask)
  {
    if forall d | d in ds && d in v && v[d].Dir? :: Stable(v[d].mode, umask) {
      assert Remade(v, ds, umask) == v;
    } else {
      var d :| d in ds && d in v && v[d].Dir? && !Stable(v[d].mode, umask);
      assert Remade(v, ds, umask)[d] != v[d];
    }
  }

  lemma RemadeNothing(v: Tree, umask: Mode)
    ensures Remade(v, {}, umask) == v
  {
  }

  lemma RemadeTwice(v: Tree, a: set<Path>, b: set<Path>, umask: Mode)
    ensures Remade(Remade(v, a, umask), b, umask) == Remade(v, a + b, umask)
  {
    var l, r := Remade(Remade(v, a, umask), b, umask), Remade(v, a + b, umask);
    forall p | p in v ensures l[p] == r[p] {
      if v[p].Dir? { assert MaskedDir(MaskedDir(v[p].mode, umask), umask) == MaskedDir(v[p].mode, umask); }
    }
  }

  // The same paths, and directories at the same ones.
  ghost predicate SameKinds(v: Tree, w: Tree) {
    v.Keys == w.Keys && forall p {:trigger w[p]} | p in w :: v[p].Dir? <==> w[p].Dir?
  }

  lemma RemadeKinds(v: Tree, ds: set<Path>, umask: Mode)
    ensures SameKinds(v, Remade(v, ds, umask))
  {
  }

  /** Materialising a visible subtree copies it if and only if mkdir keeps the modes of its directories. */
  lemma CopiedStable(v: Tree, p: Path, umask: Mode)
    ensures Copied(Subtree(v, p), umask) == Subtree(v, p)
       <==> forall d | d in Within(v, p) && v[d].Dir? :: Stable(v[d].mode, umask)
  {
    var s := Subtree(v, p);
    if forall d | d in Within(v, p) && v[d].Dir? :: Stable(v[d].mode, umask) {
      forall q | q in s ensures CopiedNode(s[q], umask) == s[q] {
        assert AtOrUnder(p + q, p) && p + q in Within(v, p);
      }
      assert Copied(s, umask) == s;
    } else {
      var d :| d in Within(v, p) && v[d].Dir? && !Stable(v[d].mode, umask);
      assert p + d[|p|..] == d;
      assert s[d[|p|..]] == v[d] && Copied(s, umask)[d[|p|..]] != s[d[|p|..]];
    }
  }

  // ----- copying a parent directory up -----

  function CopiedUp(o: Overlay, umask: Mode, d: Path, number: nat): Overlay
    requires d in o.base && o.base[d].node.Dir?
  {
    o.(upper := o.upper[d := Inode(number, Dir(MaskedDir(o.base[d].node.mode, umask)))])
  }

  ghost predicate CanCopyUp(o: Overlay, d: Path) {
    && o.Sound() && d != [] && Parent(d) in o.upper && o.upper[Parent(d)].node.Dir?
    && d !in o.upper && Unhidden(o.tombs, d) && d in o.base && o.base[d].node.Dir?
  }

  lemma CopyUpSound(o: Overlay, umask: Mode, d: Path, number: nat)
    requires CanCopyUp(o, d)
    ensures CopiedUp(o, umask, d, number).Sound()
  {
    var o' := CopiedUp(o, umask, d, number);
    forall p, q | p in o'.upper && Under(p, q) ensures q in o'.upper && o'.upper[q].node.Dir? {
      if p == d && q != Parent(d) { assert Under(Parent(d), q); }
    }
  }

  /** One parent copied up: only its mode can change, and only through mkdir. */
  lemma CopyUpView(o: Overlay, umask: Mode, d: Path, number: nat)
    requires CanCopyUp(o, d)
    ensures CopiedUp(o, umask, d, number).View() == o.View()[d := Dir(MaskedDir(o.base[d].node.mode, umask))]
    ensures CopiedUp(o, umask, d, number).View() == o.View() <==> Stable(o.base[d].node.mode, umask)
  {
    hide Overlay.Sound, Unhidden;
    var o' := CopiedUp(o, umask, d, number);
    var w := o.View()[d := Dir(MaskedDir(o.base[d].node.mode, umask))];
    ViewAt(o, d);
    forall p ensures p in o'.View() <==> p in w
      ensures p in w ==> o'.View()[p] == w[p]
    {
      ViewAt(o, p);
      ViewAt(o', p);
    }
    assert o'.View() == w;
    assert o.View()[d] == o.base[d].node;
  }

  // ----- publishing a staged entry -----

  // Every Base entry that shows beneath the destination is also in the stage.
  ghost predicate StageCovers(o: Overlay, dest: Path, stage: Layer) {
    forall q {:trigger Under(q, dest)} | Under(q, dest) && q in o.base && Unhidden(o.tombs, q) :: q[|dest|..] in stage
  }

  lemma GraftWellFormed(upper: Layer, dest: Path, stage: Layer)
    requires WellFormed(upper) && WellFormedStage(stage)
    requires dest == [] ==> stage[[]].node.Dir?
    requires dest != [] ==> Parent(dest) in upper && upper[Parent(dest)].node.Dir?
    ensures WellFormed(Graft(upper, dest, stage))
  {
    var g := Graft(upper, dest, stage);
    GraftRoot(upper, dest, stage);
    assert AtOrUnder([], dest) ==> dest == [];
    forall p, q | p in g && Under(p, q) ensures q in g && g[q].node.Dir? {
      if AtOrUnder(p, dest) {
        if AtOrUnder(q, dest) {
          assert Under(p[|dest|..], q[|dest|..]);
        } else {
          UnderChain(p, dest, q);
          if q != Parent(dest) { assert Under(Parent(dest), q); }
        }
      } else if AtOrUnder(q, dest) {
        UnderTransitive(p, q, dest);
      }
    }
  }

  // A staged entry: a tree that may be a single non-directory.
  ghost predicate WellFormedStage(s: Layer) {
    && [] in s
    && (forall p, q {:trigger Under(p, q)} | p in s && Under(p, q) :: q in s && s[q].node.Dir?)
  }

  lemma PublishView(o: Overlay, dest: Path, stage: Layer)
    requires o.Sound() && WellFormedStage(stage) && StageCovers(o, dest, stage)
    requires dest == [] ==> stage[[]].node.Dir?
    requires dest != [] ==> Parent(dest) in o.upper && o.upper[Parent(dest)].node.Dir?
    ensures var o' := o.(upper := Graft(o.upper, dest, stage));
            o'.Sound() && o'.View() == Graft(o.View(), dest, Strip(stage))
  {
    var o' := o.(upper := Graft(o.upper, dest, stage));
    GraftWellFormed(o.upper, dest, stage);
    forall p, q | p in o'.upper && !o'.upper[p].node.Dir? && Under(q, p) && q in o.base
      ensures !Unhidden(o.tombs, q)
    {
      if AtOrUnder(p, dest) {
        assert Under(q, dest);
        assert Under(q[|dest|..], p[|dest|..]);
      }
    }
    var g := Graft(o.View(), dest, Strip(stage));
    forall q ensures q in o'.View() <==> q in g
      ensures q in g ==> g[q] == o'.View()[q]
    {
      ViewAt(o, q);
      ViewAt(o', q);
      if AtOrUnder(q, dest) && q != dest { assert Under(q, dest); }
      if q == dest { assert q[|dest|..] == []; }
    }
    assert g == o'.View();
  }

  // ----- removing an entry -----

  function AddTomb(o: Overlay, p: Path): set<Path> {
    if Unhidden(o.tombs, p) && p in o.base then o.tombs + {p} else o.tombs
  }

  lemma PruneWellFormed(l: Layer, p: Path)
    requires WellFormed(l) && p != []
    ensures WellFormed(Prune(l, p))
  {
    var r := Prune(l, p);
    assert !AtOrUnder([], p);
    forall a, b | a in r && Under(a, b) ensures b in r && r[b].node.Dir? {
      if AtOrUnder(b, p) { UnderTransitive(a, b, p); }
    }
  }

  lemma RemoveView(o: Overlay, p: Path)
    requires o.Sound() && p != []
    ensures var o' := o.(upper := Prune(o.upper, p), tombs := AddTomb(o, p));
            o'.Sound() && o'.View() == Prune(o.View(), p)
  {
    var o' := o.(upper := Prune(o.upper, p), tombs := AddTomb(o, p));
    PruneWellFormed(o.upper, p);
    HidesSubtree(o, p);
    forall q ensures o'.Lookup(q) == if AtOrUnder(q, p) then None else o.Lookup(q) {
      UnhiddenAfterAdd(o, p, q);
    }
    forall a, b | a in o'.upper && !o'.upper[a].node.Dir? && Under(b, a) && b in o.base
      ensures !Unhidden(o'.tombs, b)
    {
      UnhiddenAfterAdd(o, p, b);
    }
    assert o'.View() == Prune(o.View(), p);
  }

  lemma HidesSubtree(o: Overlay, p: Path)
    requires p != [] && WellFormed(o.base)
    ensures forall q | AtOrUnder(q, p) && q in o.base :: !Unhidden(AddTomb(o, p), q)
  {
    forall q | AtOrUnder(q, p) && q in o.base ensures !Unhidden(AddTomb(o, p), q) {
      if q != p { assert Under(q, p); }
      assert p in o.base;
      if p !in AddTomb(o, p) {
        assert !Unhidden(o.tombs, p);
        if Unhidden(o.tombs, q) { HiddenBelow(o.tombs, q, p); }
      }
    }
  }

  lemma UnhiddenAfterAdd(o: Overlay, p: Path, q: Path)
    ensures Unhidden(AddTomb(o, p), q) ==> Unhidden(o.tombs, q)
    ensures !AtOrUnder(q, p) ==> (Unhidden(AddTomb(o, p), q) <==> Unhidden(o.tombs, q))
  {
  }

  // ----- renaming -----

  // The in-memory rule: tombstones at and below the rename target go.
  function DropTombs(tombs: set<Path>, to: Path): set<Path> {
    set t | t in tombs && !AtOrUnder(t, to)
  }

  predicate AncestorHidden(tombs: set<Path>, to: Path) {
    exists t | t in tombs :: t != [] && Under(to, t)
  }

  // The Base entries strictly below `to` stay hidden, or the moved subtree covers them.
  predicate CleanRename(o: Overlay, from: Path, to: Path) {
    || AncestorHidden(o.tombs, to)
    || (forall q {:trigger Under(q, to)} | Under(q, to) && q in o.base :: from + q[|to|..] in o.View())
  }

  function Renamed(o: Overlay, from: Path, to: Path, stage: Layer): Overlay {
    o.(upper := Prune(Graft(o.upper, to, stage), from), tombs := DropTombs(AddTomb(o, from), to))
  }

  ghost predicate RenameReady(o: Overlay, from: Path, to: Path, stage: Layer) {
    && o.Sound() && WellFormedStage(stage)
    && from != [] && to != [] && !AtOrUnder(from, to) && !AtOrUnder(to, from)
    && Parent(to) in o.upper && o.upper[Parent(to)].node.Dir?
    && SameKinds(Strip(stage), Subtree(o.View(), from))
  }

  lemma UnhiddenAfterRename(o: Overlay, from: Path, to: Path, q: Path)
    requires o.Sound() && from != [] && to != [] && !AtOrUnder(from, to) && !AtOrUnder(to, from)
    ensures var tombs' := DropTombs(AddTomb(o, from), to);
            && (AtOrUnder(q, to) ==> (Unhidden(tombs', q) <==> !AncestorHidden(o.tombs, to)))
            && (AtOrUnder(q, from) && q in o.base ==> !Unhidden(tombs', q))
            && (!AtOrUnder(q, from) && !AtOrUnder(q, to) ==> (Unhidden(tombs', q) <==> Unhidden(o.tombs, q)))
  {
    var added := AddTomb(o, from);
    var tombs' := DropTombs(added, to);
    if AtOrUnder(q, to) {
      NotBelowBoth(q, to, from);
      forall t | t in tombs' && t != [] && AtOrUnder(q, t) ensures AncestorHidden(o.tombs, to) {
        UnderChain(q, t, to);
        assert Under(to, t);
      }
      if AncestorHidden(o.tombs, to) {
        var t :| t in o.tombs && t != [] && Under(to, t);
        UnderTransitive(q, to, t);
        assert t in tombs';
      }
    } else {
      if !AtOrUnder(q, from) {
        UnhiddenAfterAdd(o, from, q);
      } else if q in o.base {
        HidesSubtree(o, from);
      }
      forall t | t in added && AtOrUnder(q, t) ensures t in tombs' {
        if AtOrUnder(t, to) { UnderTransitive(q, t, to); }
      }
      assert Unhidden(tombs', q) <==> Unhidden(added, q);
    }
  }

  lemma NotBelowBoth(q: Path, a: Path, b: Path)
    requires AtOrUnder(q, a) && !AtOrUnder(a, b) && !AtOrUnder(b, a)
    ensures !AtOrUnder(q, b)
  {
    if AtOrUnder(q, b) { UnderChain(q, a, b); }
  }

  /** What looking up any path gives after a completed rename. */
  lemma RenameLookup(o: Overlay, from: Path, to: Path, stage: Layer, q: Path)
    requires RenameReady(o, from, to, stage)
    ensures var r := Renamed(o, from, to, stage).Lookup(q);
            if AtOrUnder(q, to) then
              if q[|to|..] in stage then r == Some(stage[q[|to|..]])
              else r == if !AncestorHidden(o.tombs, to) && q in o.base then Some(o.base[q]) else None
            else if AtOrUnder(q, from) then r == None
            else r == o.Lookup(q)
  {
    UnhiddenAfterRename(o, from, to, q);
    if AtOrUnder(q, to) { NotBelowBoth(q, to, from); }
  }

  // No Base entry shows beneath a moved non-directory.
  ghost predicate SoundRename(o: Overlay, from: Path, to: Path) {
    || AncestorHidden(o.tombs, to)
    || (forall p, q {:trigger Under(q, p)} |
          AtOrUnder(p, to) && from + p[|to|..] in o.View() && !o.View()[from + p[|to|..]].Dir? && Under(q, p) ::
            q !in o.base)
  }

  lemma StagedNodes(o: Overlay, from: Path, to: Path, stage: Layer, p: Path)
    requires RenameReady(o, from, to, stage) && AtOrUnder(p, to)
    ensures p[|to|..] in stage <==> from + p[|to|..] in o.View()
    ensures p[|to|..] in stage ==> (stage[p[|to|..]].node.Dir? <==> o.View()[from + p[|to|..]].Dir?)
  {
    var q, s := p[|to|..], Subtree(o.View(), from);
    assert q in stage <==> q in Strip(stage);
    assert q in Strip(stage) <==> q in s;
    if q in s { assert Strip(stage)[q].Dir? <==> s[q].Dir?; }
  }

  lemma {:induction false} CleanIsSound(o: Overlay, from: Path, to: Path)
    requires o.Sound() && CleanRename(o, from, to)
    ensures SoundRename(o, from, to)
  {
    ViewIsTree(o);
    if !AncestorHidden(o.tombs, to) {
      forall p, q | AtOrUnder(p, to) && from + p[|to|..] in o.View() && !o.View()[from + p[|to|..]].Dir? && Under(q, p)
        ensures q !in o.base
      {
        assert Under(q, to);
        assert Under(from + q[|to|..], from + p[|to|..]);
      }
    }
  }

  lemma SoundAfterRename(o: Overlay, from: Path, to: Path, stage: Layer)
    requires RenameReady(o, from, to, stage) && SoundRename(o, from, to)
    ensures Renamed(o, from, to, stage).Sound()
  {
    var o' := Renamed(o, from, to, stage);
    GraftWellFormed(o.upper, to, stage);
    PruneWellFormed(Graft(o.upper, to, stage), from);
    forall p, q | p in o'.upper && !o'.upper[p].node.Dir? && Under(q, p) && q in o.base
      ensures !Unhidden(o'.tombs, q)
    {
      UnhiddenAfterRename(o, from, to, q);
      if AtOrUnder(p, to) {
        StagedNodes(o, from, to, stage, p);
        assert AncestorHidden(o.tombs, to);
      } else if AtOrUnder(q, to) {
        UnderChain(q, to, p);
        GraftRoot(o.upper, to, stage);
        assert false by { assert Under(to, p); }
      }
    }
  }

  lemma UnsoundAfterRename(o: Overlay, from: Path, to: Path, stage: Layer)
    requires RenameReady(o, from, to, stage) && !SoundRename(o, from, to)
    ensures !Renamed(o, from, to, stage).Sound()
  {
    var o' := Renamed(o, from, to, stage);
    var p, q :| AtOrUnder(p, to) && from + p[|to|..] in o.View() && !o.View()[from + p[|to|..]].Dir? && Under(q, p)
      && q in o.base;
    StagedNodes(o, from, to, stage, p);
    NotBelowBoth(p, to, from);
    UnhiddenAfterRename(o, from, to, q);
    assert p in o'.upper && !o'.upper[p].node.Dir? && Unhidden(o'.tombs, q);
  }

  /** A rename keeps the overlay sound if and only if it uncovers no Base entry beneath a non-directory. */
  lemma RenameSound(o: Overlay, from: Path, to: Path, stage: Layer)
    requires RenameReady(o, from, to, stage)
    ensures Renamed(o, from, to, stage).Sound() <==> SoundRename(o, from, to)
  {
    if SoundRename(o, from, to) {
      SoundAfterRename(o, from, to, stage);
    } else {
      UnsoundAfterRename(o, from, to, stage);
    }
  }

  lemma MovedAt(v: Tree, from: Path, to: Path, q: Path)
    ensures q in Moved(v, from, to) <==>
      !AtOrUnder(q, from) && (if AtOrUnder(q, to) then from + q[|to|..] in v else q in v)
    ensures q in Moved(v, from, to) ==> Moved(v, from, to)[q] == if AtOrUnder(q, to) then v[from + q[|to|..]] else v[q]
  {
  }

  // The stage hangs at `to`, and nothing is left at `from`.
  function MovedAs(v: Tree, from: Path, to: Path, s: Tree): Tree {
    Prune(Graft(v, to, s), from)
  }

  lemma MovedAsAt(v: Tree, from: Path, to: Path, s: Tree, q: Path)
    ensures q in MovedAs(v, from, to, s) <==>
      !AtOrUnder(q, from) && (if AtOrUnder(q, to) then q[|to|..] in s else q in v)
    ensures q in MovedAs(v, from, to, s) ==> MovedAs(v, from, to, s)[q] == if AtOrUnder(q, to) then s[q[|to|..]]
      else v[q]
  {
  }

  lemma CleanRenameMoves(o: Overlay, from: Path, to: Path, stage: Layer)
    requires RenameReady(o, from, to, stage) && CleanRename(o, from, to)
    ensures Renamed(o, from, to, stage).View() == MovedAs(o.View(), from, to, Strip(stage))
  {
    var v, w, m := o.View(), Renamed(o, from, to, stage).View(), MovedAs(o.View(), from, to, Strip(stage));
    forall q ensures (q in w <==> q in m) && (q in w ==> w[q] == m[q]) {
      RenameLookup(o, from, to, stage, q);
      MovedAsAt(v, from, to, Strip(stage), q);
      ViewAt(Renamed(o, from, to, stage), q);
      ViewAt(o, q);
      if AtOrUnder(q, to) {
        NotBelowBoth(q, to, from);
        StagedNodes(o, from, to, stage, q);
        if q == to { assert q[|to|..] == []; } else { assert Under(q, to); }
        assert q[|to|..] in stage ==> Strip(stage)[q[|to|..]] == stage[q[|to|..]].node;
      }
    }
    assert w == m;
  }

  lemma UncleanRenameUncovers(o: Overlay, from: Path, to: Path, stage: Layer)
    requires RenameReady(o, from, to, stage) && !CleanRename(o, from, to)
    ensures Renamed(o, from, to, stage).View() != MovedAs(o.View(), from, to, Strip(stage))
  {
    var q :| Under(q, to) && q in o.base && from + q[|to|..] !in o.View();
    RenameLookup(o, from, to, stage, q);
    StagedNodes(o, from, to, stage, q);
    MovedAsAt(o.View(), from, to, Strip(stage), q);
    ViewAt(Renamed(o, from, to, stage), q);
  }

  /** A rename puts exactly the staged subtree at `to` if and only if it is clean. */
  lemma RenameView(o: Overlay, from: Path, to: Path, stage: Layer)
    requires RenameReady(o, from, to, stage)
    ensures Renamed(o, from, to, stage).View() == MovedAs(o.View(), from, to, Strip(stage)) <==>
      CleanRename(o, from, to)
  {
    if CleanRename(o, from, to) {
      CleanRenameMoves(o, from, to, stage);
    } else {
      UncleanRenameUncovers(o, from, to, stage);
    }
  }

  /**
    Staging makes the moved directories anew, and copy-up those on the way to `to`: what is
    left is the reference's move with exactly these directories remade.
   */
  lemma MovedRemade(v: Tree, from: Path, to: Path, ds: set<Path>, umask: Mode)
    requires OnTheWay(ds, to) && !AtOrUnder(to, from) && !AtOrUnder(from, to)
    ensures var w, m := Remade(v, ds, umask), Moved(v, from, to);
            MovedAs(w, from, to, Copied(Subtree(w, from), umask)) == Remade(m, ds + Within(m, to), umask)
  {
    var w, m := Remade(v, ds, umask), Moved(v, from, to);
    var l, r := MovedAs(w, from, to, Copied(Subtree(w, from), umask)), Remade(m, ds + Within(m, to), umask);
    forall q ensures (q in l <==> q in r) && (q in l ==> l[q] == r[q]) {
      MovedAsAt(w, from, to, Copied(Subtree(w, from), umask), q);
      MovedAt(v, from, to, q);
      if AtOrUnder(q, to) {
        NotBelowBoth(q, to, from);
        var p := from + q[|to|..];
        assert AtOrUnder(p, from);
        if p in ds { UnderTransitive(to, p, from); }
      }
    }
    assert l == r;
  }
}
