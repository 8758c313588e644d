/**
  A publication over its own path that is given up after the phase commit, seen on visible trees:
  when every state that the rollback passes through shows the old tree or the new one.
 */
module VisibleRollback {
  import opened Layers
  import opened OverlayLaws
  import opened Journal
  import opened Staging
  import opened Abandonment
  import opened CallStates
  import opened InPlace

  // The directories strictly inside whose mode mkdir does not keep.
  ghost function Inner(v: Tree, path: Path, umask: Mode): set<Path> {
    set d | d in v && Under(d, path) && v[d].Dir? && !Stable(v[d].mode, umask)
  }

  ghost function NewTree(v: Tree, path: Path, plan: Plan, umask: Mode): Tree
    requires !plan.NewEntry? ==> plan.relative in v
  {
    Remade(Bare(v, path, plan), PlanStaged(v, path, plan), umask)
  }

  // No such directory; or one, and the entry itself does not change.
  ghost predicate FewRemade(v: Tree, new': Tree, path: Path, umask: Mode) {
    || Inner(v, path, umask) == {}
    || (path in v && path in new' && new'[path] == v[path] && exists d :: Inner(v, path, umask) == {d})
  }

  lemma OneTree(base: Layer, d: Disk, t: Tree, u: Tree)
    requires RecoversTo(base, d, t) && RecoversTo(base, d, u)
    ensures t == u
  {
    var upper, tombs :| Recovers(d, upper, tombs) && ShowsSoundly(base, upper, tombs, t);
    var upper', tombs' :| Recovers(d, upper', tombs') && ShowsSoundly(base, upper', tombs', u);
    OneOutcome(d, upper, tombs, upper', tombs');
  }

  lemma NoTree(base: Layer, d: Disk, refusal: Refusal, t: Tree)
    requires RefusedWith(d, refusal)
    ensures !RecoversTo(base, d, t)
  {
    if RecoversTo(base, d, t) {
      var upper, tombs :| Recovers(d, upper, tombs) && ShowsSoundly(base, upper, tombs, t);
      NotRecovered(d, refusal, upper, tombs);
    }
  }

  // What the new tree and a half-made one hold at a directory strictly inside.
  lemma AtInner(v: Tree, path: Path, plan: Plan, umask: Mode, left: Layer, d: Path)
    requires Applies(plan, path, v) && !plan.NewEntry? && [] in left && d in v && Under(d, path)
    ensures var t, new' := Remade(Bare(v, path, plan), StillAnew(v, path, plan, left), umask),
      NewTree(v, path, plan, umask);
            && d in t && d in new' && path in t && path in new' && t[path] == new'[path]
            && new'[d] == CopiedNode(v[d], umask)
                 && t[d] == (if d[|path|..] in left then CopiedNode(v[d], umask) else v[d])
  {
    assert path[|path|..] == [];
  }

  // A tree that shows some inner directory old and something else new is neither.
  lemma Neither(v: Tree, path: Path, plan: Plan, umask: Mode, left: Layer, d: Path)
    requires Applies(plan, path, v) && !plan.NewEntry? && [] in left
    requires d in Inner(v, path, umask) && d[|path|..] !in left
    requires
      || NewTree(v, path, plan, umask)[path] != v[path]
      || exists e :: e in Inner(v, path, umask) && e[|path|..] in left
    ensures var t := Remade(Bare(v, path, plan), StillAnew(v, path, plan, left), umask);
            t != v && t != NewTree(v, path, plan, umask)
  {
    AtInner(v, path, plan, umask, left, d);
    if NewTree(v, path, plan, umask)[path] == v[path] {
      var e :| e in Inner(v, path, umask) && e[|path|..] in left;
      AtInner(v, path, plan, umask, left, e);
    }
  }

  lemma Either(v: Tree, path: Path, plan: Plan, umask: Mode, left: Layer)
    requires IsTree(v) && Applies(plan, path, v) && !plan.NewEntry? && [] in left
      && FewRemade(v, NewTree(v, path, plan, umask), path, umask)
    ensures var t := Remade(Bare(v, path, plan), StillAnew(v, path, plan, left), umask);
            t == v || t == NewTree(v, path, plan, umask)
  {
    var t, new', inner := Remade(Bare(v, path, plan), StillAnew(v, path, plan, left), umask),
      NewTree(v, path, plan, umask), Inner(v, path, umask);
    assert path[|path|..] == [];
    if forall d | d in inner :: d[|path|..] in left {
      forall q | q in new' ensures q in t && t[q] == new'[q] { InnerAt(v, path, plan, umask, left, q); }
      assert t == new';
    } else {
      var d :| inner == {d};
      forall q | q in v ensures q in t && t[q] == v[q] { InnerAt(v, path, plan, umask, left, q); }
      assert t == v;
    }
  }

  lemma InnerAt(v: Tree, path: Path, plan: Plan, umask: Mode, left: Layer, q: Path)
    requires Applies(plan, path, v) && !plan.NewEntry? && [] in left && q in v
    ensures var t, new' := Remade(Bare(v, path, plan), StillAnew(v, path, plan, left), umask),
      NewTree(v, path, plan, umask);
            && q in t && q in new'
            && (q == path ==> t[q] == new'[q])
            && (q != path && q !in Inner(v, path, umask) ==> t[q] == new'[q] == v[q])
            && (q in Inner(v, path, umask) ==> t[q] == if q[|path|..] in left then new'[q] else v[q])
  {
    assert path[|path|..] == [];
  }

  ghost predicate HoldsAll(d: Disk, names: set<Path>) {
    Waits(d) && forall n | n in names :: n in Left(d)
  }

  ghost predicate LacksSome(d: Disk, names: set<Path>) {
    Waits(d) && exists n :: n in names && n !in Left(d)
  }

  // The first state in which one of the names is gone; the state before holds them all.
  lemma FirstLoss(states: seq<Disk>, lo: nat, hi: nat, names: set<Path>) returns (i: nat)
    requires lo < hi < |states| && forall j | lo < j <= hi :: LosesOne(states[j - 1], states[j])
    requires HoldsAll(states[lo], names) && LacksSome(states[hi], names)
    ensures lo < i <= hi && HoldsAll(states[i - 1], names) && LacksSome(states[i], names)
    decreases hi - lo
  {
    assert LosesOne(states[lo], states[lo + 1]);
    if LacksSome(states[lo + 1], names) {
      i := lo + 1;
    } else {
      i := FirstLoss(states, lo + 1, hi, names);
    }
  }

  // A publication over its own path that has been given up.
  ghost predicate Abandoned(base: Layer, states: seq<Disk>, k: nat, o: Overlay, f: Files, op: Operation, plan: Plan,
                            umask: Mode, stage: Layer) {
    && o.Sound() && o.base == base && f.upper == o.upper && f.tombs == o.tombs
    && InPlaceRequest(op) && op.path != [] && Applies(plan, op.path, o.View())
         && PlanStatus(plan, o.View(), umask) == None
    && Parent(op.path) in o.upper && o.upper[Parent(op.path)].node.Dir?
    && WellFormedStage(stage) && Strip(stage) == Planned(plan, o.View(), umask)
    && GivenUp(states, k, f, op, stage)
  }

  lemma InPlaceStatus(o: Overlay, op: Operation, plan: Plan, umask: Mode, stage: Layer)
    requires o.Sound() && Applies(plan, op.path, o.View()) && op.path != [] && op.path in o.upper
    requires Parent(op.path) in o.upper && o.upper[Parent(op.path)].node.Dir?
    requires WellFormedStage(stage) && Strip(stage) == Planned(plan, o.View(), umask)
    ensures RenameStatus(o.upper, op.path, stage[[]].node.Dir?) == if ReplacesInPlace(o, op.path) then None
      else Some(ENOTEMPTY)
    ensures !plan.NewEntry?
  {
    PlannedRoot(o, op.path, plan, umask);
    assert Strip(stage)[[]] == stage[[]].node;
    RenameStatusHere(o, op.path, stage[[]].node.Dir?);
    ViewAt(o, op.path);
  }

  lemma AlwaysEither(base: Layer, states: seq<Disk>, k: nat, o: Overlay, f: Files, op: Operation, plan: Plan,
                     umask: Mode, stage: Layer)
    requires Abandoned(base, states, k, o, f, op, plan, umask, stage)
    requires op.path in o.upper && ReplacesInPlace(o, op.path)
      && FewRemade(o.View(), NewTree(o.View(), op.path, plan, umask), op.path, umask)
    ensures forall i | k <= i < |states| ::
      RecoversTo(base, states[i], o.View()) || RecoversTo(base, states[i], NewTree(o.View(), op.path, plan, umask))
  {
    hide RecoversTo, GivenUp, Abandoning, FewRemade, Remade, Bare, StillAnew, NewTree, Planned;
    var v := o.View();
    InPlaceStatus(o, op, plan, umask, stage);
    ViewIsTree(o);
    forall i | k <= i < |states|
      ensures RecoversTo(base, states[i], v) || RecoversTo(base, states[i], NewTree(v, op.path, plan, umask)) {
      GivenUpState(states, k, f, op, stage, i);
      StateGivenUp(base, states[i], o, f, op, plan, umask, stage);
      if Waits(states[i]) {
        RootStays(states[i], f, op, stage);
        Either(v, op.path, plan, umask, Left(states[i]));
      }
    }
  }

  lemma RootStays(d: Disk, f: Files, op: Operation, stage: Layer)
    requires Abandoning(d, f, op, stage) && Waits(d)
    ensures [] in Left(d)
  {
  }

  // A state of the rollback that shows neither tree.
  lemma SomeNeither(base: Layer, states: seq<Disk>, k: nat, o: Overlay, f: Files, op: Operation, plan: Plan,
                    umask: Mode, stage: Layer) returns (i: nat)
    requires Abandoned(base, states, k, o, f, op, plan, umask, stage) && op.path in o.upper
      && ReplacesInPlace(o, op.path)
    requires !FewRemade(o.View(), NewTree(o.View(), op.path, plan, umask), op.path, umask)
    ensures k <= i < |states| && !RecoversTo(base, states[i], o.View())
      && !RecoversTo(base, states[i], NewTree(o.View(), op.path, plan, umask))
  {
    hide RecoversTo, Abandoning, Remade, Bare, StillAnew, NewTree, Planned, Overlay.View, Overlay.Sound;
    var v, path := o.View(), op.path;
    var inner := Inner(v, path, umask);
    InPlaceStatus(o, op, plan, umask, stage);
    var d :| d in inner;
    i := |states| - 3;
    assert [] in Left(states[i]) by { assert Left(states[i]).Keys == {[]}; }
    AtInner(v, path, plan, umask, Left(states[i]), d);
    if NewTree(v, path, plan, umask)[path] == v[path] {
      assert inner != {d};
      var e :| e in inner && e != d;
      i := OneLost(states, k, o, f, op, plan, umask, stage, d, e);
    } else {
      assert d[|path|..] !in Left(states[i]) by { assert d[|path|..] != []; }
      Neither(v, path, plan, umask, Left(states[i]), d);
    }
    GivenUpState(states, k, f, op, stage, i);
    StateGivenUp(base, states[i], o, f, op, plan, umask, stage);
    var t := Remade(Bare(v, path, plan), StillAnew(v, path, plan, Left(states[i])), umask);
    if RecoversTo(base, states[i], v) { OneTree(base, states[i], v, t); }
    if RecoversTo(base, states[i], NewTree(v, path, plan, umask)) {
      OneTree(base, states[i], NewTree(v, path, plan, umask), t);
    }
  }

  // Of two inner directories one is lost first.
  lemma OneLost(states: seq<Disk>, k: nat, o: Overlay, f: Files, op: Operation, plan: Plan, umask: Mode, stage: Layer,
                d: Path, e: Path) returns (i: nat)
    requires Abandoned(o.base, states, k, o, f, op, plan, umask, stage) && !plan.NewEntry?
    requires d in Inner(o.View(), op.path, umask) && e in Inner(o.View(), op.path, umask) && d != e
    ensures k <= i < |states| - 2 && Waits(states[i])
    ensures var t := Remade(Bare(o.View(), op.path, plan), StillAnew(o.View(), op.path, plan, Left(states[i])), umask);
            t != o.View() && t != NewTree(o.View(), op.path, plan, umask)
  {
    hide Remade, Bare, StillAnew, NewTree, Overlay.View, Overlay.Sound, Abandoning;
    var v, path := o.View(), op.path;
    var names := {d[|path|..], e[|path|..]};
    assert path + d[|path|..] == d && path + e[|path|..] == e;
    InStage(v, path, plan, umask, stage, d);
    InStage(v, path, plan, umask, stage, e);
    assert d[|path|..] !in Left(states[|states| - 3]) by { assert Left(states[|states| - 3]).Keys == {[]}; }
    i := FirstLoss(states, k, |states| - 3, names);
    assert LosesOne(states[i - 1], states[i]);
    GivenUpState(states, k, f, op, stage, i);
    RootStays(states[i], f, op, stage);
    if d[|path|..] in Left(states[i]) {
      Neither(v, path, plan, umask, Left(states[i]), e);
    } else {
      assert e[|path|..] in Left(states[i]);
      Neither(v, path, plan, umask, Left(states[i]), d);
    }
  }

  lemma InStage(v: Tree, path: Path, plan: Plan, umask: Mode, stage: Layer, d: Path)
    requires Applies(plan, path, v) && !plan.NewEntry? && Strip(stage) == Planned(plan, v, umask) && d in v
      && AtOrUnder(d, path)
    ensures d[|path|..] in stage
  {
    CopiedAt(v, path, umask, d[|path|..]);
    assert path + d[|path|..] == d;
    assert d[|path|..] in Strip(stage);
  }

  /**
    Every state of the rollback shows the old tree or the new one if and only if the path is in the
    upper tree, the replacement is accepted, and mkdir keeps the mode of every directory strictly
    inside, or of all but one if the entry itself does not change.
   */
  lemma RollbackShowsOldOrNew(base: Layer, states: seq<Disk>, k: nat, o: Overlay, f: Files, op: Operation, plan: Plan,
                              umask: Mode, stage: Layer)
    requires Abandoned(base, states, k, o, f, op, plan, umask, stage)
    ensures var v, new' := o.View(), NewTree(o.View(), op.path, plan, umask);
            (forall i | k <= i < |states| :: RecoversTo(base, states[i], v) || RecoversTo(base, states[i], new'))
            <==> op.path in o.upper && ReplacesInPlace(o, op.path) && FewRemade(v, new', op.path, umask)
  {
    hide RecoversTo, Abandoning, FewRemade, NewTree, Planned, Overlay.View, Overlay.Sound;
    var v, new' := o.View(), NewTree(o.View(), op.path, plan, umask);
    if op.path !in o.upper {
      StageGoneOutcome(states[|states| - 2], f, op);
      NoTree(base, states[|states| - 2], StageAndEntryMissing, v);
      NoTree(base, states[|states| - 2], StageAndEntryMissing, new');
    } else if !ReplacesInPlace(o, op.path) {
      InPlaceStatus(o, op, plan, umask, stage);
      FilledRefused(states, k, o, f, op, plan, umask, stage);
      NoTree(base, states[k], CannotPublish, v);
      NoTree(base, states[k], CannotPublish, new');
    } else if FewRemade(v, new', op.path, umask) {
      AlwaysEither(base, states, k, o, f, op, plan, umask, stage);
    } else {
      var i := SomeNeither(base, states, k, o, f, op, plan, umask, stage);
    }
  }
}
