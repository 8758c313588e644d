/**
  Publications over their own path, creations and edits: put in place, refused or given up.
 */
module InPlace {
  import opened Layers
  import opened OverlayLaws
  import opened Journal
  import opened Abandonment
  import opened Listings
  import opened Staging
  import opened CallStates
  import opened CopyUp
  import opened StageStates
  import opened EditLaws
  import Plain = PlainTree

  // ... for the creation of an empty file on the way, and for an edit of a file or symlink.
  ghost predicate CreationCrash(base: Layer, states: seq<Disk>, from: nat, k: nat, o: Overlay, umask: Mode, path: Path,
                                fault: Fault, v': Tree) {
    CrashBehaviour(base, states, from, k, o, CreateCopies(o, path, fault), umask, path, fault,
                   Anew(Plain.Create(o.View(), path, File(Masked(0x1A4, umask), [])), CreateCopies(o, path, fault),
                        umask), {}, o.View(), v')
  }

  ghost predicate EditCrash(base: Layer, states: seq<Disk>, from: nat, k: nat, o: Overlay, umask: Mode, path: Path,
                            edit: Plain.Edit, through: Option<Errno>, fault: Fault, v': Tree) {
    CrashBehaviour(base, states, from, k, o, EditCopies(o, path, fault), umask, path, fault,
                   Anew(Plain.EditAt(o.View(), path, edit, through), EditCopies(o, path, fault), umask), {}, o.View(),
                     v')
  }

  predicate IsLeaf(v: Tree, path: Path) { path != [] && path in v && !v[path].Dir? }

  ghost function CreateCopies(o: Overlay, path: Path, fault: Fault): set<Path> {
    CopiedIf(path != [] && path !in o.View(), o, path, fault)
  }

  ghost function EditCopies(o: Overlay, path: Path, fault: Fault): set<Path> {
    CopiedIf(IsLeaf(o.View(), path), o, path, fault)
  }

  function ForgottenBy(cache: Cache, op: Operation): Cache {
    var c := Forgotten(cache, op.path);
    if op.kind.Rename? then Forgotten(c, op.target) else c
  }

  lemma StageAsPlanned(o: Overlay, op: Operation, plan: Plan, umask: Mode, stage: Layer)
    requires o.Sound() && (!plan.NewEntry? ==> plan.relative in o.View())
    requires PlanStatus(plan, o.View(), umask) == None && Strip(stage) == Planned(plan, o.View(), umask)
    ensures WellFormedStage(stage) && [] in stage
    ensures PublicationStatus(o, op, plan, umask) == RenameStatus(o.upper, Dest(op), stage[[]].node.Dir?)
  {
    ViewIsTree(o);
    PlannedWellFormed(plan, o.View(), umask, stage);
    assert Strip(stage)[[]] == stage[[]].node;
  }

  // How publication ends without faults: preparing the stage may fail, then rename(2) may refuse.
  ghost function PublicationStatus(o: Overlay, op: Operation, plan: Plan, umask: Mode): Option<Errno>
    requires !plan.NewEntry? ==> plan.relative in o.View()
  {
    var prepared := PlanStatus(plan, o.View(), umask);
    var planned := Planned(plan, o.View(), umask);
    if prepared.Some? || [] !in planned then prepared else RenameStatus(o.upper, Dest(op), planned[[]].Dir?)
  }

  lemma PreparationFails(o: Overlay, op: Operation, plan: Plan, umask: Mode)
    requires !plan.NewEntry? ==> plan.relative in o.View()
    ensures PlanStatus(plan, o.View(), umask).Some? ==>
      PublicationStatus(o, op, plan, umask) == PlanStatus(plan, o.View(), umask)
  {
  }

  lemma NothingUnder(upper: Layer, p: Path)
    requires WellFormed(upper) && p !in upper
    ensures Prune(upper, p) == upper
  {
    forall q | q in upper ensures !AtOrUnder(q, p) {
      assert !Under(q, p) && q != p;
    }
  }

  ghost predicate Applies(plan: Plan, path: Path, v: Tree) {
    match plan
    case NewEntry(_) => path != [] && path !in v
    case CopyOf(_) => false
    case CopyAndEdit(r, _, _) => r == path && path in v
  }

  // The entry is not a directory that the upper tree already holds non-empty.
  predicate ReplacesInPlace(o: Overlay, path: Path) {
    !(path in o.upper && o.upper[path].node.Dir? && HasChild(o.upper, path))
  }

  ghost function MutationStatus(o: Overlay, path: Path, plan: Plan, umask: Mode): Option<Errno>
    requires !plan.NewEntry? ==> plan.relative in o.View()
  {
    match Plain.ParentStatus(o.View(), path)
    case Some(e) => Some(e)
    case None => PlacementStatus(o, path, plan, umask)
  }

  ghost predicate InPlaceRequest(op: Operation) {
    Staged(op.kind) && !op.kind.Rename? && op.phase.Prepared? && !op.addTomb && !op.dropTarget
  }

  ghost function PlacementStatus(o: Overlay, path: Path, plan: Plan, umask: Mode): Option<Errno>
    requires !plan.NewEntry? ==> plan.relative in o.View()
  {
    match PlanStatus(plan, o.View(), umask)
    case Some(e) => Some(e)
    case None => if plan.NewEntry? || ReplacesInPlace(o, path) then None else Some(ENOTEMPTY)
  }

  // The publishing rename has something to put in place, at a path that recovery accepts.
  ghost predicate Replaces(o: Overlay, path: Path, plan: Plan) {
    path != [] && (plan.NewEntry? || ReplacesInPlace(o, path))
  }

  // What crashes can do to such a publication, whether or not it can take its place.
  ghost predicate InPlaceCrash(base: Layer, states: seq<Disk>, from: nat, k: nat, o: Overlay, ds: set<Path>,
                               umask: Mode, path: Path, plan: Plan, fault: Fault, plain: Plain.Outcome, v': Tree)
    requires !plan.NewEntry? ==> plan.relative in o.View()
  {
    && (Replaces(o, path, plan) ==>
          CrashBehaviour(base, states, from, k, o, ds, umask, path, fault, plain, PlanStaged(o.View(), path, plan),
                         o.View(), v'))
    && (path != [] && !Replaces(o, path, plan) ==> BarredBehaviour(base, states, from, k, ds, umask, o.View()))
  }

  // The new tree, no directory made anew, and the directories that staging makes anew.
  function Bare(v: Tree, path: Path, plan: Plan): Tree
    requires !plan.NewEntry? ==> plan.relative in v
  {
    match plan
    case NewEntry(n) => v[path := n]
    case CopyOf(_) => v
    case CopyAndEdit(r, e, through) => v[path := Plain.EditNode(v[r], e, through).1]
  }

  function PlanStaged(v: Tree, path: Path, plan: Plan): set<Path> {
    if plan.CopyAndEdit? then StagedAnew(v, path, plan.edit) else {}
  }

  lemma MutatedIsBare(v: Tree, path: Path, plan: Plan, umask: Mode)
    requires IsTree(v) && Applies(plan, path, v) && PlanStatus(plan, v, umask) == None
    ensures Mutated(v, path, plan, umask, None) == Remade(Bare(v, path, plan), PlanStaged(v, path, plan), umask)
  {
    if plan.NewEntry? {
      GraftLeaf(v, path, plan.node);
      RemadeNothing(Bare(v, path, plan), umask);
    } else {
      EditedTree(v, path, plan.edit, plan.through, umask);
    }
  }

  // How staging and publishing end without faults, once the parents are in place.
  ghost function PlacementOutcome(o: Overlay, path: Path, plan: Plan, umask: Mode): Plain.Outcome
    requires !plan.NewEntry? ==> plan.relative in o.View()
  {
    match PlacementStatus(o, path, plan, umask)
    case Some(e) => Plain.Failed(e)
    case None => Plain.Done(Bare(o.View(), path, plan))
  }

  // ... and with the directories ds copied up first.
  ghost function MutationOutcome(o: Overlay, path: Path, plan: Plan, ds: set<Path>, umask: Mode): Plain.Outcome
    requires !plan.NewEntry? ==> plan.relative in o.View()
  {
    match MutationStatus(o, path, plan, umask)
    case Some(e) => Plain.Failed(e)
    case None => Plain.Done(Bare(Remade(o.View(), ds, umask), path, plan))
  }

  // Copy-up changes nothing that matters for placing an entry at path.
  lemma StillPlaced(o: Overlay, p: Overlay, ds: set<Path>, path: Path, plan: Plan, umask: Mode)
    requires CopiedBy(o, p, ds, umask) && OnTheWay(ds, path) && SameBelow(o.upper, p.upper, path)
      && Applies(plan, path, o.View())
    ensures p.View() == Remade(o.View(), ds, umask) && Applies(plan, path, p.View())
    ensures Replaces(p, path, plan) <==> Replaces(o, path, plan)
    ensures PlacementStatus(p, path, plan, umask) == PlacementStatus(o, path, plan, umask)
    ensures PlanStaged(p.View(), path, plan) == PlanStaged(o.View(), path, plan)
    ensures path in p.upper <==> path in o.upper
  {
    assert AtOrUnder(path, path);
    assert ReplacesInPlace(p, path) <==> ReplacesInPlace(o, path) by {
      forall q | Under(q, path) ensures q in o.upper <==> q in p.upper { assert AtOrUnder(q, path); }
    }
    RemadeKinds(o.View(), ds, umask);
    assert Within(p.View(), path) == Within(o.View(), path);
    assert path in o.View() ==> p.View()[path] == o.View()[path];
  }

  lemma StillReaches(o: Overlay, p: Overlay, ds: set<Path>, path: Path, plan: Plan, umask: Mode, fault: Fault)
    requires CopiedBy(o, p, ds, umask) && OnTheWay(ds, path) && Applies(plan, path, o.View())
      && Applies(plan, path, p.View())
    ensures ReachesCommit(plan, p.View(), umask, fault) <==> ReachesCommit(plan, o.View(), umask, fault)
  {
    RemadeKinds(o.View(), ds, umask);
  }

  function Mutated(v: Tree, path: Path, plan: Plan, umask: Mode, status: Option<Errno>): Tree
    requires !plan.NewEntry? ==> plan.relative in v
  {
    if status.None? then Graft(v, path, Planned(plan, v, umask)) else v
  }

  lemma MutationBlocked(o: Overlay, p: Overlay, ds: set<Path>, path: Path, plan: Plan, umask: Mode, fault: Fault,
                        status: Option<Errno>)
    requires Applies(plan, path, o.View()) && p.View() == Remade(o.View(), ds, umask) && status.Some?
    requires status == if Stops(o, path, fault) then Some(EIO) else Plain.ParentStatus(o.View(), path)
    ensures Agrees(Anew(MutationOutcome(o, path, plan, ds, umask), PlanStaged(o.View(), path, plan), umask),
                   Remade(o.View(), ds, umask), fault, status, p.View())
    ensures !(fault.PublishCall? && MutationOutcome(o, path, plan, ds, umask).Done?)
    ensures fault.NoFault? ==> Plain.ParentStatus(o.View(), path).Some?
  {
  }

  lemma MutationEnds(o: Overlay, p: Overlay, v': Tree, ds: set<Path>, path: Path, plan: Plan, umask: Mode,
                     fault: Fault, status: Option<Errno>)
    requires Applies(plan, path, o.View()) && Applies(plan, path, p.View()) && p.View() == Remade(o.View(), ds, umask)
      && p.Sound()
    requires !Stops(o, path, fault) && Plain.ParentStatus(o.View(), path) == None
    requires v' == Mutated(p.View(), path, plan, umask, status) && (Fatal(fault) ==> status.Some?)
    requires PlacementStatus(p, path, plan, umask) == PlacementStatus(o, path, plan, umask)
      && PlanStaged(p.View(), path, plan) == PlanStaged(o.View(), path, plan)
    requires fault.NoFault? || status.None? ==> status == PlacementStatus(p, path, plan, umask)
    ensures Agrees(Anew(MutationOutcome(o, path, plan, ds, umask), PlanStaged(o.View(), path, plan), umask),
                   Remade(o.View(), ds, umask), fault, status, v')
    ensures PlacementOutcome(p, path, plan, umask) == MutationOutcome(o, path, plan, ds, umask)
  {
    hide Mutated, Bare, Remade;
    if status.None? {
      ViewIsTree(p);
      MutatedIsBare(p.View(), path, plan, umask);
    } else {
      NothingMutated(p.View(), path, plan, umask, status);
    }
  }

  lemma NothingMutated(v: Tree, path: Path, plan: Plan, umask: Mode, status: Option<Errno>)
    requires (!plan.NewEntry? ==> plan.relative in v) && status.Some?
    ensures Mutated(v, path, plan, umask, status) == v
  {
  }

  lemma BlockedBehaviour(base: Layer, states: seq<Disk>, from: nat, o: Overlay, ds: set<Path>, umask: Mode, path: Path,
                         plan: Plan, fault: Fault, plain: Plain.Outcome, v': Tree)
    requires Applies(plan, path, o.View())
    requires from <= |states| && forall i | from <= i < |states| ::
      RecoversNear(base, states[i], o.View(), ds, umask) && !Committed(states[i])
    requires !(fault.PublishCall? && plain.Done?)
    ensures InPlaceCrash(base, states, from, |states|, o, ds, umask, path, plan, fault, plain, v')
  {
    FailedInTime(base, states, from, o.View(), ds, umask);
  }

  lemma JoinInPlace(base: Layer, mid: seq<Disk>, states: seq<Disk>, from: nat, k: nat, o: Overlay, p: Overlay,
                    ds: set<Path>, umask: Mode, path: Path, plan: Plan, fault: Fault, plain: Plain.Outcome, v': Tree)
    requires CopiedFirst(base, mid, states, from, o.View(), ds, umask) && p.View() == Remade(o.View(), ds, umask)
    requires Applies(plan, path, o.View()) && Applies(plan, path, p.View())
    requires (path in p.upper <==> path in o.upper) && (Replaces(p, path, plan) <==> Replaces(o, path, plan))
    requires PlanStaged(p.View(), path, plan) == PlanStaged(o.View(), path, plan)
    requires InPlaceCrash(base, states, |mid|, k, p, {}, umask, path, plan, fault, plain, v')
    ensures InPlaceCrash(base, states, from, k, o, ds, umask, path, plan, fault, plain, v')
  {
    hide CrashBehaviour, BarredBehaviour, CopiedFirst, Replaces, PlanStaged, Remade, Overlay.View;
    if Replaces(o, path, plan) {
      JoinBehaviour(base, mid, states, from, k, o, p, ds, umask, path, fault, plain, PlanStaged(o.View(), path, plan),
                    v');
    } else if path != [] {
      JoinBarred(base, mid, states, from, k, o.View(), ds, umask);
    }
  }

  // The upper tree holds the directory non-empty, so its copy waits in vain.
  lemma FilledRefused(states: seq<Disk>, k: nat, o: Overlay, f: Files, op: Operation, plan: Plan, umask: Mode,
                      stage: Layer)
    requires o.Sound() && f.upper == o.upper && InPlaceRequest(op) && op.path != [] && Applies(plan, op.path, o.View())
    requires Parent(op.path) in o.upper && o.upper[Parent(op.path)].node.Dir?
    requires GivenUp(states, k, f, op, stage) && WellFormedStage(stage)
      && Strip(stage) == Planned(plan, o.View(), umask)
    requires !Replaces(o, op.path, plan)
    ensures forall i | k <= i < |states| && Waits(states[i]) :: RefusedWith(states[i], CannotPublish)
    ensures Waits(states[k])
  {
    hide Planned, PlanStatus, Abandoning, RefusedWith;
    PlannedRoot(o, op.path, plan, umask);
    assert Strip(stage)[[]] == stage[[]].node;
    RenameStatusHere(o, op.path, stage[[]].node.Dir?);
    forall i | k <= i < |states| && Waits(states[i]) ensures RefusedWith(states[i], CannotPublish) {
      GivenUpState(states, k, f, op, stage, i);
      UnplaceableRefused(states[i], f, op, stage);
    }
  }

  // ... and once the stage is gone, or the record, nothing has happened.
  lemma BarredInPlace(base: Layer, states: seq<Disk>, from: nat, k: nat, o: Overlay, f: Files, op: Operation,
                      plan: Plan, umask: Mode, stage: Layer)
    requires from <= k <= |states| && o.Sound() && o.base == base && f.upper == o.upper && f.tombs == o.tombs
    requires InPlaceRequest(op) && op.path != [] && Applies(plan, op.path, o.View()) && !Replaces(o, op.path, plan)
    requires Parent(op.path) in o.upper && o.upper[Parent(op.path)].node.Dir?
    requires forall i | from <= i < k :: Preparing(states[i], f)
    requires k < |states| ==>
      GivenUp(states, k, f, op, stage) && WellFormedStage(stage) && Strip(stage) == Planned(plan, o.View(), umask)
    ensures BarredBehaviour(base, states, from, k, {}, umask, o.View())
  {
    hide Planned, Preparing, GivenUp, Abandoning, RefusedWith, RecoversTo, Recovers, Overlay.View, Overlay.Sound;
    var v := o.View();
    RemadeNothing(v, umask);
    forall i | from <= i < k ensures RecoversNear(base, states[i], v, {}, umask) && !Committed(states[i]) {
      PreparingShows(base, states[i], o, f);
      assert RecoversTo(base, states[i], Remade(v, {}, umask));
    }
    if k < |states| {
      FilledRefused(states, k, o, f, op, plan, umask, stage);
      GivenUpState(states, k, f, op, stage, k);
      forall i | k <= i < |states| && !Waits(states[i]) ensures RecoversNear(base, states[i], v, {}, umask) {
        GivenUpState(states, k, f, op, stage, i);
        NothingPlaced(base, states[i], o, f, op, stage);
        assert RecoversTo(base, states[i], Remade(v, {}, umask));
      }
    }
  }

  lemma NothingPlaced(base: Layer, d: Disk, o: Overlay, f: Files, op: Operation, stage: Layer)
    requires o.Sound() && o.base == base && f.upper == o.upper && f.tombs == o.tombs
    requires InPlaceRequest(op) && op.path != [] && op.path in o.upper && Abandoning(d, f, op, stage) && !Waits(d)
    ensures RecoversTo(base, d, o.View())
  {
    assert ShowsSoundly(base, f.upper, f.tombs, o.View());
    if d.journal == [] {
      RecoverIdle(d);
    } else {
      StageGoneOutcome(d, f, op);
    }
  }

  /** What crashes can do to a publication over its own path. */
  lemma InPlaceBehaviour(base: Layer, states: seq<Disk>, from: nat, k: nat, o: Overlay, f: Files, op: Operation,
                         plan: Plan, umask: Mode, stage: Layer, fault: Fault, status: Option<Errno>, v': Tree)
    requires from <= k <= |states| && o.Sound() && o.base == base && f.upper == o.upper && f.tombs == o.tombs
    requires InPlaceRequest(op) && Applies(plan, op.path, o.View()) && Replaces(o, op.path, plan)
    requires Parent(op.path) in o.upper && o.upper[Parent(op.path)].node.Dir?
    requires forall i | from <= i < k :: Preparing(states[i], f)
    requires k < |states| ==> WellFormedStage(stage) && Strip(stage) == Planned(plan, o.View(), umask)
    requires k < |states| && status.Some? ==> GivenUp(states, k, f, op, stage)
    requires k < |states| && status.None? ==> states[k].journal != [] && forall i | k <= i < |states| ::
      GoingForward(states[i], f, op, stage)
    requires status.None? ==> k < |states|
    requires status.Some? && (PlanStatus(plan, o.View(), umask).Some? || !fault.PublishCall?) ==> k == |states|
    requires (k < |states| <==> ReachesCommit(plan, o.View(), umask, fault)) && (Fatal(fault) ==> status.Some?)
    requires v' == Mutated(o.View(), op.path, plan, umask, status)
    ensures CrashBehaviour(base, states, from, k, o, {}, umask, op.path, fault,
                           PlacementOutcome(o, op.path, plan, umask), PlanStaged(o.View(), op.path, plan), o.View(), v')
  {
    hide RecoversTo, Committed, CallAtomic, CrashAtomic, GivenUp, GivenUpBehaviour, Graft, Planned, PlanStatus;
    var path := op.path;
    PublicationHere(o, path, op, plan, umask);
    PlannedRoot(o, path, plan, umask);
    if k < |states| {
      assert RenameStatus(o.upper, path, stage[[]].node.Dir?) == None by {
        assert Strip(stage)[[]] == stage[[]].node;
        RenameStatusHere(o, path, stage[[]].node.Dir?);
      }
      PublishedView(o, path, plan, umask, stage, map[]);
    }
    if fault.PublishCall? && PlacementOutcome(o, path, plan, umask).Done? {
      AbandonedInPlace(base, states, from, k, o, f, op, plan, umask, stage);
    } else {
      ProtocolIsAtomic(base, states, from, k, f, op, stage, o.View(), v');
      ExactIsCall(base, states, from, k, o.View(), umask, v');
    }
  }

  lemma CrashInPlace(base: Layer, states: seq<Disk>, from: nat, k: nat, o: Overlay, f: Files, op: Operation,
                     plan: Plan, umask: Mode, stage: Layer, fault: Fault, status: Option<Errno>, v': Tree)
    requires from <= k <= |states| && o.Sound() && o.base == base && f.upper == o.upper && f.tombs == o.tombs
    requires InPlaceRequest(op) && Applies(plan, op.path, o.View())
    requires op.path != [] ==> Parent(op.path) in o.upper && o.upper[Parent(op.path)].node.Dir?
    requires op.path != [] ==> forall i | from <= i < k :: Preparing(states[i], f)
    requires k < |states| ==> WellFormedStage(stage) && Strip(stage) == Planned(plan, o.View(), umask)
    requires k < |states| && status.Some? ==> GivenUp(states, k, f, op, stage)
    requires k < |states| && status.None? ==> states[k].journal != [] && forall i | k <= i < |states| ::
      GoingForward(states[i], f, op, stage)
    requires status.None? ==> k < |states| && PlacementStatus(o, op.path, plan, umask) == None
    requires status.Some? && (PlanStatus(plan, o.View(), umask).Some?
                              || (!fault.PublishCall? && PlacementStatus(o, op.path, plan, umask) == None)) ==>
      k == |states|
    requires (k < |states| <==> ReachesCommit(plan, o.View(), umask, fault)) && (Fatal(fault) ==> status.Some?)
    requires v' == Mutated(o.View(), op.path, plan, umask, status)
    ensures InPlaceCrash(base, states, from, k, o, {}, umask, op.path, plan, fault,
                         PlacementOutcome(o, op.path, plan, umask), v')
  {
    hide CrashBehaviour, BarredBehaviour, GivenUp, GoingForward, Preparing, Planned, PlanStatus, Mutated, PlanStaged,
      ReachesCommit, Overlay.View, Overlay.Sound;
    if Replaces(o, op.path, plan) {
      InPlaceBehaviour(base, states, from, k, o, f, op, plan, umask, stage, fault, status, v');
    } else if op.path != [] {
      BarredInPlace(base, states, from, k, o, f, op, plan, umask, stage);
    }
  }

  /**
    A stage that has lost entries is published over what the upper tree holds: where they are missing Base
    shows through, so that the new tree appears with only some of its inner directories made anew.
   */
  lemma HalfPublishedView(o: Overlay, path: Path, plan: Plan, umask: Mode, stage: Layer, left: Layer)
    requires o.Sound() && Applies(plan, path, o.View()) && Replaces(o, path, plan)
      && PlanStatus(plan, o.View(), umask) == None
    requires Parent(path) in o.upper && o.upper[Parent(path)].node.Dir?
    requires Strip(stage) == Planned(plan, o.View(), umask) && Shrunk(stage, left) && WellFormedStage(left)
    ensures var o' := o.(upper := Graft(o.upper, path, left));
            && o'.Sound() && o'.View() ==
                 Remade(Bare(o.View(), path, plan), StillAnew(o.View(), path, plan, left), umask)
            && StillAnew(o.View(), path, plan, left) <= PlanStaged(o.View(), path, plan)
  {
    var v, o', c := o.View(), o.(upper := Graft(o.upper, path, left)), StillAnew(o.View(), path, plan, left);
    ViewIsTree(o);
    ViewAt(o, path);
    NothingUpperBelow(o, path, plan);
    GraftWellFormed(o.upper, path, left);
    var w := Remade(Bare(v, path, plan), c, umask);
    forall q ensures (q in o'.View() <==> q in w) && (q in w ==> o'.View()[q] == w[q]) {
      ViewAt(o, q);
      ViewAt(o', q);
      if AtOrUnder(q, path) { LeftNode(o, path, plan, umask, stage, left, q); }
    }
    assert o'.View() == w;
    forall p, q | p in o'.upper && !o'.upper[p].node.Dir? && Under(q, p) && q in o.base
      ensures !Unhidden(o.tombs, q)
    {
      if AtOrUnder(p, path) {
        LeftNode(o, path, plan, umask, stage, left, p);
        ViewAt(o, q);
        assert p in v ==> !v[p].Dir?;
      }
    }
  }

  // The directories made anew that the rest of a stage still holds.
  function StillAnew(v: Tree, path: Path, plan: Plan, left: Layer): set<Path> {
    set q | q in PlanStaged(v, path, plan) && AtOrUnder(q, path) && q[|path|..] in left
  }

  lemma NothingUpperBelow(o: Overlay, path: Path, plan: Plan)
    requires o.Sound() && Applies(plan, path, o.View()) && Replaces(o, path, plan)
    ensures !HasChild(o.upper, path)
  {
    ViewAt(o, path);
    ViewIsTree(o);
    forall q | q in o.upper ensures q in o.View() { ViewAt(o, q); }
  }

  // One staged node, and the one it stands for.
  lemma LeftNode(o: Overlay, path: Path, plan: Plan, umask: Mode, stage: Layer, left: Layer, q: Path)
    requires o.Sound() && Applies(plan, path, o.View()) && PlanStatus(plan, o.View(), umask) == None
      && AtOrUnder(q, path)
    requires Strip(stage) == Planned(plan, o.View(), umask) && Shrunk(stage, left) && [] in left
    ensures var v, suffix := o.View(), q[|path|..];
            var w := Remade(Bare(v, path, plan), StillAnew(v, path, plan, left), umask);
            && (suffix in left ==> q in w && left[suffix].node == w[q] && (q in v ==> (w[q].Dir? <==> v[q].Dir?)))
            && (suffix !in left ==> q != path && (q in w <==> q in v) && (q in v ==> w[q] == v[q]))
            && (plan.NewEntry? && suffix in left ==> q == path)
  {
    var v, suffix := o.View(), q[|path|..];
    assert suffix == [] <==> q == path;
    assert path + suffix == q;
    if suffix in left {
      assert suffix in stage && left[suffix] == stage[suffix] && Strip(stage)[suffix] == stage[suffix].node;
      if !plan.NewEntry? { CopiedAt(v, path, umask, suffix); }
    }
  }

  lemma StateGivenUp(base: Layer, d: Disk, o: Overlay, f: Files, op: Operation, plan: Plan, umask: Mode, stage: Layer)
    requires o.Sound() && o.base == base && f.upper == o.upper && f.tombs == o.tombs && Abandoning(d, f, op, stage)
    requires InPlaceRequest(op) && Applies(plan, op.path, o.View()) && Replaces(o, op.path, plan)
      && PlanStatus(plan, o.View(), umask) == None
    requires Parent(op.path) in o.upper && o.upper[Parent(op.path)].node.Dir?
    requires WellFormedStage(stage) && Strip(stage) == Planned(plan, o.View(), umask)
    requires RenameStatus(o.upper, op.path, stage[[]].node.Dir?) == None
    ensures d.journal == [] || (op.path in o.upper && !Waits(d)) ==> RecoversTo(base, d, o.View())
    ensures Waits(d) ==> RecoversTo(base, d,
                                    Remade(Bare(o.View(), op.path, plan), StillAnew(o.View(), op.path, plan, Left(d)),
                                           umask))
    ensures Waits(d) ==> StillAnew(o.View(), op.path, plan, Left(d)) <= PlanStaged(o.View(), op.path, plan)
    ensures d.journal != [] && op.path !in o.upper && !Waits(d) ==> RefusedWith(d, StageAndEntryMissing)
  {
    hide Graft, Planned, PlanStatus, Overlay.View, Remade, Bare, StillAnew, PlanStaged;
    assert ShowsSoundly(base, f.upper, f.tombs, o.View());
    if d.journal == [] {
      RecoverIdle(d);
    } else if Waits(d) {
      HalfStagePublished(d, f, op, stage);
      HalfPublishedView(o, op.path, plan, umask, stage, Left(d));
      assert ShowsSoundly(base, Graft(f.upper, op.path, Left(d)), f.tombs,
                          Remade(Bare(o.View(), op.path, plan), StillAnew(o.View(), op.path, plan, Left(d)), umask));
    } else {
      StageGoneOutcome(d, f, op);
    }
  }

  lemma AbandonedInPlace(base: Layer, states: seq<Disk>, from: nat, k: nat, o: Overlay, f: Files, op: Operation,
                         plan: Plan, umask: Mode, stage: Layer)
    requires from <= k < |states| && o.Sound() && o.base == base && f.upper == o.upper && f.tombs == o.tombs
    requires InPlaceRequest(op) && Applies(plan, op.path, o.View()) && Replaces(o, op.path, plan)
      && PlanStatus(plan, o.View(), umask) == None
    requires Parent(op.path) in o.upper && o.upper[Parent(op.path)].node.Dir?
    requires forall i | from <= i < k :: Preparing(states[i], f)
    requires WellFormedStage(stage) && Strip(stage) == Planned(plan, o.View(), umask)
    requires RenameStatus(o.upper, op.path, stage[[]].node.Dir?) == None
    requires GivenUp(states, k, f, op, stage)
    ensures GivenUpBehaviour(base, states, from, k, op.path in o.upper, {}, umask, Bare(o.View(), op.path, plan),
                             PlanStaged(o.View(), op.path, plan), o.View())
  {
    hide Graft, Planned, PlanStatus, Overlay.View, Overlay.Sound, RecoversTo, Recovers, RefusedWith, Abandoning, Bare,
      PlanStaged, StillAnew, Replaces, Preparing, Remade;
    var v := o.View();
    RemadeNothing(v, umask);
    forall i | from <= i < k ensures RecoversNear(base, states[i], v, {}, umask) && !Committed(states[i]) {
      PreparingShows(base, states[i], o, f);
      assert RecoversTo(base, states[i], Remade(v, {}, umask));
    }
    forall i | k <= i < |states|
      ensures (op.path in o.upper || i != |states| - 2) ==>
        RecoversNear(base, states[i], v, {}, umask)
          || RecoversNear(base, states[i], Bare(v, op.path, plan), PlanStaged(v, op.path, plan), umask)
    {
      GivenUpState(states, k, f, op, stage, i);
      StateGivenUp(base, states[i], o, f, op, plan, umask, stage);
      if RecoversTo(base, states[i], v) {
        assert RecoversTo(base, states[i], Remade(v, {}, umask));
      } else if Waits(states[i]) {
        assert RecoversTo(base, states[i],
                          Remade(Bare(v, op.path, plan), StillAnew(v, op.path, plan, Left(states[i])), umask));
      }
    }
    GivenUpState(states, k, f, op, stage, |states| - 2);
    StateGivenUp(base, states[|states| - 2], o, f, op, plan, umask, stage);
    GivenUpState(states, k, f, op, stage, k);
  }

  // No directory below the root has a listing in the cache with anything in it.
  predicate NothingListedBelow(cache: Cache) {
    forall d | d in cache && d != [] :: cache[d] == map[]
  }

  lemma RenameStatusHere(o: Overlay, path: Path, isDir: bool)
    requires path != [] ==> Parent(path) in o.upper && o.upper[Parent(path)].node.Dir?
    requires path in o.upper ==> isDir == o.upper[path].node.Dir?
    ensures RenameStatus(o.upper, path, isDir) == if ReplacesInPlace(o, path) then None else Some(ENOTEMPTY)
  {
  }

  lemma PlannedRoot(o: Overlay, path: Path, plan: Plan, umask: Mode)
    requires o.Sound() && Applies(plan, path, o.View())
    ensures [] in Planned(plan, o.View(), umask)
    ensures path in o.upper ==> Planned(plan, o.View(), umask)[[]].Dir? == o.upper[path].node.Dir?
  {
    ViewAt(o, path);
    if !plan.NewEntry? {
      CopiedAt(o.View(), path, umask, []);
      assert path + [] == path;
    }
  }

  lemma PublicationHere(o: Overlay, path: Path, op: Operation, plan: Plan, umask: Mode)
    requires o.Sound() && Applies(plan, path, o.View()) && Dest(op) == path
    requires path != [] ==> Parent(path) in o.upper && o.upper[Parent(path)].node.Dir?
    ensures PublicationStatus(o, op, plan, umask) == PlacementStatus(o, path, plan, umask)
  {
    PlannedRoot(o, path, plan, umask);
    RenameStatusHere(o, path, Planned(plan, o.View(), umask)[[]].Dir?);
    if plan.NewEntry? { ViewAt(o, path); }
  }

  lemma PublishedView(o: Overlay, path: Path, plan: Plan, umask: Mode, stage: Layer, listings: Cache)
    requires o.Sound() && Applies(plan, path, o.View()) && Coherent(o, listings)
    requires WellFormedStage(stage) && Strip(stage) == Planned(plan, o.View(), umask)
    requires path != [] ==> Parent(path) in o.upper && o.upper[Parent(path)].node.Dir?
    ensures var o' := o.(upper := Graft(o.upper, path, stage));
            && o'.Sound() && o'.View() == Graft(o.View(), path, Planned(plan, o.View(), umask))
            && (path != [] || NothingListedBelow(listings) ==> Coherent(o', Forgotten(listings, path)))
            && path in o'.upper
            && (plan.NewEntry? ==> path in o'.View() && o'.View()[path] == plan.node)
  {
    if plan.NewEntry? { GraftRoot(o.View(), path, Planned(plan, o.View(), umask)); }
    CoversBelow(o, path, plan, umask, stage);
    PublishView(o, path, stage);
    GraftRoot(o.upper, path, stage);
    if path != [] {
      PublishCoherent(o, path, stage, listings);
    } else if NothingListedBelow(listings) {
      RootKeepsKinds(o, plan, umask, stage);
      StillNothingListed(o, o.(upper := Graft(o.upper, [], stage)), listings);
    }
  }

  lemma StillCoherent(o: Overlay, listings: Cache, path: Path)
    requires Coherent(o, listings)
    ensures Coherent(o, Forgotten(listings, path))
  {
  }

  lemma CoversBelow(o: Overlay, path: Path, plan: Plan, umask: Mode, stage: Layer)
    requires o.Sound() && Applies(plan, path, o.View()) && Strip(stage) == Planned(plan, o.View(), umask)
    ensures StageCovers(o, path, stage)
    ensures path == [] ==> [] in stage && stage[[]].node.Dir?
  {
    ViewIsTree(o);
    forall q | Under(q, path) && q in o.base && Unhidden(o.tombs, q) ensures q[|path|..] in stage {
      ViewAt(o, q);
      if !plan.NewEntry? {
        CopiedAt(o.View(), path, umask, q[|path|..]);
        assert path + q[|path|..] == q;
        assert q[|path|..] in Strip(stage);
      }
    }
    if path == [] {
      CopiedAt(o.View(), path, umask, []);
      assert [] in Strip(stage) && Strip(stage)[[]] == stage[[]].node;
    }
  }

  lemma PublishCoherent(o: Overlay, path: Path, stage: Layer, cache: Cache)
    requires path != [] && Coherent(o, cache)
    ensures Coherent(o.(upper := Graft(o.upper, path, stage)), Forgotten(cache, path))
  {
    CacheSurvives(o, o.(upper := Graft(o.upper, path, stage)), Forgotten(cache, path), path, path);
  }

  // Replacing the whole tree by an edited copy moves nothing.
  lemma RootKeepsKinds(o: Overlay, plan: Plan, umask: Mode, stage: Layer)
    requires o.Sound() && Applies(plan, [], o.View()) && Strip(stage) == Planned(plan, o.View(), umask)
    ensures SameKinds(o.View(), Graft(o.View(), [], Strip(stage)))
  {
    hide Overlay.View, Overlay.Lookup, Overlay.Sound, Subtree, Copied;
    CopiedAt(o.View(), [], umask, []);
    var v, g := o.View(), Graft(o.View(), [], Strip(stage));
    forall q ensures (q in g <==> q in v) && (q in g ==> (g[q].Dir? <==> v[q].Dir?)) {
      assert AtOrUnder(q, []) && q[0..] == q && [] + q == q;
      CopiedAt(v, [], umask, q);
    }
    assert g.Keys == v.Keys;
  }

  lemma StillNothingListed(o: Overlay, o': Overlay, cache: Cache)
    requires o.Sound() && o'.Sound() && Coherent(o, cache) && NothingListedBelow(cache)
      && SameKinds(o.View(), o'.View())
    ensures Coherent(o', Forgotten(cache, []))
  {
    forall d | d in Forgotten(cache, [])
      ensures d in o'.View() && o'.View()[d].Dir? && Forgotten(cache, [])[d] == ListingOf(o', d) {
      EmptyListing(o, d);
      EmptyListing(o', d);
    }
  }

  /**
    A successful chmod or utimens of the view root forgets only the root's own listing.  Every
    other entry has become a new inode, so what is still cached is exact if and only if it is empty.
   */
  lemma RootPublicationCoherent(o: Overlay, plan: Plan, umask: Mode, stage: Layer, cache: Cache)
    requires o.Sound() && Coherent(o, cache) && Applies(plan, [], o.View()) && o.upper.Keys == {[]}
    requires WellFormedStage(stage) && stage[[]].node.Dir? && Strip(stage) == Planned(plan, o.View(), umask)
    requires forall q | q in stage && q in o.base :: stage[q].number != o.base[q].number
    ensures Coherent(o.(upper := Graft(o.upper, [], stage)), Forgotten(cache, [])) <==> NothingListedBelow(cache)
  {
    var o' := o.(upper := Graft(o.upper, [], stage));
    PublishedView(o, [], plan, umask, stage, cache);
    if !NothingListedBelow(cache) {
      var d :| d in cache && d != [] && cache[d] != map[];
      var n :| n in cache[d];
      StaleListing(o, plan, umask, stage, cache, d, n);
    }
  }

  lemma StaleListing(o: Overlay, plan: Plan, umask: Mode, stage: Layer, cache: Cache, d: Path, n: Name)
    requires o.Sound() && Coherent(o, cache) && Applies(plan, [], o.View()) && o.upper.Keys == {[]}
    requires Strip(stage) == Planned(plan, o.View(), umask)
    requires forall q | q in stage && q in o.base :: stage[q].number != o.base[q].number
    requires d in cache && d != [] && n in cache[d]
    ensures !Coherent(o.(upper := Graft(o.upper, [], stage)), Forgotten(cache, []))
  {
    var o' := o.(upper := Graft(o.upper, [], stage));
    ListedIffVisible(o, d, n);
    RootInode(o, plan, umask, stage, Child(d, n));
    ViewAt(o', Child(d, n));
    ListedIffVisible(o', d, n);
    assert d in Forgotten(cache, []) && Forgotten(cache, [])[d][n].number != ListingOf(o', d)[n].number;
  }

  lemma RootInode(o: Overlay, plan: Plan, umask: Mode, stage: Layer, c: Path)
    requires o.Sound() && Applies(plan, [], o.View()) && o.upper.Keys == {[]} && c != [] && c in o.View()
    requires Strip(stage) == Planned(plan, o.View(), umask)
    ensures c in o.base && o.Lookup(c) == Some(o.base[c])
    ensures c in stage && o.(upper := Graft(o.upper, [], stage)).Lookup(c) == Some(stage[c])
  {
    ViewAt(o, c);
    assert AtOrUnder(c, []) && c[0..] == c && [] + c == c;
    CopiedAt(o.View(), [], umask, c);
    assert c in Strip(stage);
  }

  lemma NewEntryAgrees(o: Overlay, path: Path, node: Node, ds: set<Path>, umask: Mode)
    requires o.Sound() && path != [] && path !in o.View() && OnTheWay(ds, path)
    ensures MutationOutcome(o, path, NewEntry(node), ds, umask) == Anew(Plain.Create(o.View(), path, node), ds, umask)
    ensures Anew(MutationOutcome(o, path, NewEntry(node), ds, umask), {}, umask) ==
      Anew(Plain.Create(o.View(), path, node), ds, umask)
  {
    var v := o.View();
    RemadeNothing(Remade(v[path := node], ds, umask), umask);
    assert path !in ds;
    assert Remade(v, ds, umask)[path := node] == Remade(v[path := node], ds, umask);
  }

  lemma SameButId(states: seq<Disk>, k: nat, f: Files, op: Operation, request: Operation, stage: Layer)
    requires k <= |states| && op == request.(id := op.id, phase := Publishing)
    requires forall i | k <= i < |states| :: GoingForward(states[i], f, op, stage)
    ensures forall i | k <= i < |states| :: GoingForward(states[i], f, request, stage)
  {
  }

  lemma SameFiles(f: Files, tombs: set<Path>, op: Operation, request: Operation, stage: Layer)
    requires op == request.(id := op.id, phase := Publishing)
    ensures CompleteUpper(f.upper, op, stage) == CompleteUpper(f.upper, request, stage)
    ensures StoredTombs(f.tombs, op) == StoredTombs(f.tombs, request)
      && MemoryTombs(tombs, op) == MemoryTombs(tombs, request)
  {
  }

  lemma StageWaiting(d: Disk, f: Files, op: Operation, request: Operation)
    requires d.files.upper == f.upper && d.files.tombs == f.tombs && d.journal == [op] && Staged(op.kind)
    requires op == request.(id := op.id, phase := Publishing) && op.id in d.files.stages
    ensures GoingForward(d, f, request, d.files.stages[op.id])
  {
  }

  lemma JustPublished(d: Disk, f: Files, op: Operation, request: Operation, stage: Layer)
    requires d.files.upper == Graft(f.upper, Dest(op), stage) && d.files.tombs == f.tombs && d.journal == [op]
      && Staged(op.kind)
    requires op == request.(id := op.id, phase := Publishing) && op.id !in d.files.stages && Dest(op) in d.files.upper
    ensures GoingForward(d, f, request, stage)
  {
  }

  // What the engine makes of an edit: a directory that the upper tree holds non-empty cannot be replaced.
  function Barred(o: Overlay, path: Path, plain: Plain.Outcome): Plain.Outcome {
    if plain.Done? && path in o.upper && o.upper[path].node.Dir? && HasChild(o.upper, path)
      then Plain.Failed(ENOTEMPTY) else plain
  }

  // What open_handle makes of the overlay before it truncates.
  ghost predicate Opened(o: Overlay, o': Overlay, path: Path, create: bool, exclusive: bool, mode: Mode, umask: Mode,
                         fault: Fault, status: Option<Errno>) {
    var ds := CopiedParents(o, path, fault);
    if path == [] || (path in o.View() && o.View()[path].Dir?) then o' == o && status == Some(EISDIR)
    else if path in o.View() then o' == o && status == if create && exclusive then Some(EEXIST) else None
    else if !create then o' == o && status == Some(ENOENT)
    else
      && Agrees(Anew(Plain.Create(o.View(), path, File(mode, [])), ds, umask), Remade(o.View(), ds, umask), fault,
                status, o'.View())
      && (status.None? ==> !Stops(o, path, fault) && WellFormed(o'.upper) && path in o'.upper)
  }

  // If the file was created and not written, the call fails and leaves it empty.
  ghost predicate CreatedThenWritten(o: Overlay, v': Tree, path: Path, offset: nat, bytes: seq<Byte>, mode: Mode,
                                     umask: Mode, through: Option<Errno>, creating: Fault, writing: Fault,
                                       first: Option<Errno>, status: Option<Errno>) {
    var v, plain, all := o.View(), Plain.WriteFile(o.View(), path, offset, bytes, mode, through), BaseParents(o, path);
    && (status.None? ==> plain.Done? && v' == Remade(plain.tree, all, umask))
    && (status.Some? ==>
          if path == [] || (path in v && v[path].Dir?) then v' == v
          else if path in v then v' == Remade(v, CopiedParents(o, path, writing), umask)
          else if first.Some? then v' == Remade(v, CopiedParents(o, path, creating), umask)
          else v' == Remade(v[path := File(mode, [])], all, umask))
    && (creating.NoFault? && writing.NoFault? && status.Some? ==>
        plain == Plain.Failed(status.value) && (path !in v ==> first.Some?))
    && (Fatal(writing) ==> status.Some?)
  }

  lemma OpenFailed(o: Overlay, o': Overlay, path: Path, offset: nat, bytes: seq<Byte>, mode: Mode, umask: Mode,
                   through: Option<Errno>, creating: Fault, writing: Fault, first: Option<Errno>)
    requires o'.Sound() && Opened(o, o', path, true, false, mode, umask, creating, first) && first.Some?
    ensures CreatedThenWritten(o, o'.View(), path, offset, bytes, mode, umask, through, creating, writing, first, first)
    ensures Plain.EditAt(o'.View(), path, Plain.WriteAt(offset, bytes), through).Failed?
  {
    ViewIsTree(o');
  }

  // Which of the two trees a failed call leaves.
  lemma LeavesCreated(o: Overlay, v': Tree, path: Path, offset: nat, bytes: seq<Byte>, mode: Mode, umask: Mode,
                      through: Option<Errno>, creating: Fault, writing: Fault, first: Option<Errno>,
                        status: Option<Errno>)
    requires CreatedThenWritten(o, v', path, offset, bytes, mode, umask, through, creating, writing, first, status)
    ensures status.Some? && path != [] && path !in o.View() ==>
      (v' == Remade(o.View(), CopiedParents(o, path, creating), umask) <==> first.Some?)
        && (path in v' <==> first.None?)
  {
    hide Overlay.View, CopiedParents, BaseParents;
    if status.Some? && path != [] && path !in o.View() {
      assert path !in Remade(o.View(), CopiedParents(o, path, creating), umask);
      assert path in Remade(o.View()[path := File(mode, [])], BaseParents(o, path), umask);
    }
  }

  lemma OpenSucceeds(o: Overlay, o': Overlay, path: Path, mode: Mode, umask: Mode, creating: Fault,
                     first: Option<Errno>)
    requires Opened(o, o', path, true, false, mode, umask, creating, first)
    ensures creating.NoFault? && path !in o.View() && Plain.Create(o.View(), path, File(mode, [])).Done? ==> first.None?
  {
  }

  lemma CreatedHasParents(o: Overlay, path: Path)
    requires WellFormed(o.upper) && path in o.upper
    ensures forall fault :: CopiedParents(o, path, fault) == {}
  {
  }

  lemma WrittenAfterOpen(o: Overlay, o': Overlay, v': Tree, path: Path, offset: nat, bytes: seq<Byte>, mode: Mode,
                         umask: Mode, through: Option<Errno>, creating: Fault, writing: Fault, status: Option<Errno>)
    requires o'.Sound() && IsLeaf(o'.View(), path) && Opened(o, o', path, true, false, mode, umask, creating, None)
      && (status.None? ==> !Stops(o', path, writing))
    requires var ds := CopiedParents(o', path, writing);
             Agrees(Anew(Plain.EditAt(o'.View(), path, Plain.WriteAt(offset, bytes), through), ds, umask),
                    Remade(o'.View(), ds, umask), writing, status, v')
    ensures CreatedThenWritten(o, v', path, offset, bytes, mode, umask, through, creating, writing, None, status)
    ensures Fatal(writing) ==> status.Some?
  {
    hide Overlay.View, Overlay.Sound, BaseParents, Stops;
    if path in o.View() {
      hide Remade;
    } else {
      CreatedHasParents(o', path);
      CreatedTree(o, o'.View(), path, offset, bytes, mode, umask, through, creating);
      RemadeNothing(o'.View(), umask);
      var plain := Plain.EditAt(o'.View(), path, Plain.WriteAt(offset, bytes), through);
      if plain.Done? { RemadeNothing(plain.tree, umask); }
    }
  }

  // Writing the file just created, with the parents copied up before or after.
  lemma CreatedTree(o: Overlay, w: Tree, path: Path, offset: nat, bytes: seq<Byte>, mode: Mode, umask: Mode,
                    through: Option<Errno>, creating: Fault)
    requires path !in o.View() && path != []
    requires Anew(Plain.Create(o.View(), path, File(mode, [])), CopiedParents(o, path, creating), umask) ==
      Plain.Done(w)
    requires !Stops(o, path, creating)
    ensures w == Remade(o.View()[path := File(mode, [])], BaseParents(o, path), umask)
    ensures Anew(Plain.WriteFile(o.View(), path, offset, bytes, mode, through), BaseParents(o, path), umask) ==
      Plain.EditAt(w, path, Plain.WriteAt(offset, bytes), through)
  {
    hide Overlay.View;
    var v, f, ds := o.View(), File(mode, []), BaseParents(o, path);
    assert path !in ds;
    var written := Plain.EditNode(f, Plain.WriteAt(offset, bytes), through).1;
    assert Remade(v[path := f], ds, umask)[path := written] == Remade(v[path := f][path := written], ds, umask);
  }

  lemma NothingWritten(base: Layer, states: seq<Disk>, o: Overlay, umask: Mode, path: Path, edit: Plain.Edit,
                       through: Option<Errno>, fault: Fault)
    requires Plain.EditAt(o.View(), path, edit, through).Failed?
    ensures EditCrash(base, states, |states|, |states|, o, umask, path, edit, through, fault, o.View())
  {
  }

  // A leaf is edited with the directories on the way copied up.
  lemma HandleIsEdit(o: Overlay, path: Path, offset: nat, bytes: seq<Byte>, through: Option<Errno>, fault: Fault)
    requires IsLeaf(o.View(), path)
    ensures EditCopies(o, path, fault) == CopiedParents(o, path, fault)
    ensures Plain.WriteHandle(o.View(), path, offset, bytes, through) ==
      Plain.EditAt(o.View(), path, Plain.WriteAt(offset, bytes), through)
  {
  }

  // How an edit ends unless a fault is injected.
  function EditStatus(o: Overlay, path: Path, e: Plain.Edit, through: Option<Errno>): Option<Errno> {
    if path !in o.View() then Some(ENOENT)
    else if EditErrno(o.View()[path], e, through).Some? then EditErrno(o.View()[path], e, through)
    else if ReplacesInPlace(o, path) then None
    else Some(ENOTEMPTY)
  }

  // What the call leaves, entry by entry and byte by byte, and how it ends.
  ghost predicate EditEnds(o: Overlay, v': Tree, path: Path, e: Plain.Edit, through: Option<Errno>, fault: Fault,
                           umask: Mode, status: Option<Errno>) {
    && (status.None? ==> TreeEdited(o.View(), v', path, e, umask))
    && (fault.NoFault? ==> status == EditStatus(o, path, e, through))
  }

  lemma EditAnswer(o: Overlay, path: Path, e: Plain.Edit, through: Option<Errno>, copied: set<Path>, fault: Fault,
                   umask: Mode, status: Option<Errno>, v': Tree)
    requires path in o.View() && OnTheWay(copied, path)
    requires Agrees(Anew(Barred(o, path, Plain.EditAt(o.View(), path, e, through)),
                         copied + StagedAnew(o.View(), path, e), umask),
                    Remade(o.View(), copied, umask), fault, status, v')
    ensures EditEnds(o, v', path, e, through, fault, umask, status)
  {
    hide Overlay.View, Plain.EditAt, TreeEdited, EditErrno, Remade;
    EditShows(o.View(), path, e, through, copied + StagedAnew(o.View(), path, e), umask);
  }

  lemma NoEntryEnds(o: Overlay, path: Path, e: Plain.Edit, through: Option<Errno>, fault: Fault, umask: Mode)
    requires path !in o.View()
    ensures forall v' :: EditEnds(o, v', path, e, through, fault, umask, Some(ENOENT))
  {
  }

  lemma DirectoryEnds(o: Overlay, path: Path, e: Plain.Edit, through: Option<Errno>, fault: Fault, umask: Mode)
    requires path in o.View() && o.View()[path].Dir? && (e.Resize? || e.WriteAt?)
    ensures forall v' :: EditEnds(o, v', path, e, through, fault, umask, Some(EISDIR))
  {
  }

  lemma CreationAnswer(v: Tree, path: Path, n: Node, copied: set<Path>, fault: Fault, umask: Mode,
                       status: Option<Errno>, v': Tree)
    requires OnTheWay(copied, path)
    requires Agrees(Anew(Plain.Create(v, path, n), copied, umask), Remade(v, copied, umask), fault, status, v')
    ensures status.None? ==> TreeExtended(v, v', path, n, umask)
  {
    hide TreeExtended, Remade, Plain.Create;
    if status.None? { CreateShows(v, path, n, copied, umask); }
  }

  // The file that a write meets: an empty one if there was none.
  function AsFound(v: Tree, path: Path, created: Mode): Tree {
    if path in v then v else v[path := File(created, [])]
  }

  // A file that is written holds the bytes; it is made under the umask if there was none.
  ghost predicate FileWritten(v: Tree, v': Tree, path: Path, offset: nat, bytes: seq<Byte>, umask: Mode) {
    path != [] && TreeEdited(AsFound(v, path, 0x1A4 & !umask), v', path, Plain.WriteAt(offset, bytes), umask)
  }

  lemma WriteFileAnswer(o: Overlay, path: Path, offset: nat, bytes: seq<Byte>, created: Mode, through: Option<Errno>,
                        creating: Fault, writing: Fault, umask: Mode, first: Option<Errno>, status: Option<Errno>,
                        v': Tree)
    requires CreatedThenWritten(o, v', path, offset, bytes, created, umask, through, creating, writing, first, status)
    requires created == Masked(0x1A4, umask)
    ensures status.None? ==> FileWritten(o.View(), v', path, offset, bytes, umask)
  {
    hide Overlay.View, Plain.EditAt, TreeEdited, Remade;
    if status.None? {
      EditShows(AsFound(o.View(), path, created), path, Plain.WriteAt(offset, bytes), through, BaseParents(o, path),
                umask);
    }
  }

  // A write to a path where nothing is: the directories on the way are copied up, and nothing else happens.
  lemma GoneWrite(base: Layer, states: seq<Disk>, from: nat, o: Overlay, path: Path, offset: nat, bytes: seq<Byte>,
                  through: Option<Errno>, ds: set<Path>, fault: Fault, umask: Mode, status: Option<Errno>, v': Tree)
    requires path != [] && path !in o.View() && status.Some? && v' == Remade(o.View(), ds, umask)
    requires fault.NoFault? ==>
      status == match Plain.ParentStatus(o.View(), path) case Some(e) => Some(e) case None => Some(ENOENT)
    ensures var plain := Plain.WriteHandle(o.View(), path, offset, bytes, through);
            && Agrees(Anew(plain, ds, umask), Remade(o.View(), ds, umask), fault, status, v')
            && (CallAtomic(base, states, from, |states|, o.View(), ds, umask, v') ==>
                  CrashBehaviour(base, states, from, |states|, o, ds, umask, path, fault, Anew(plain, ds, umask), {},
                                 o.View(), v'))
  {
  }

  // The directories that staging an edited copy makes anew: those inside, and the entry itself unless chmod follows.
  function StagedAnew(v: Tree, path: Path, edit: Plain.Edit): set<Path> {
    if edit.SetTimes? then Within(v, path) else Within(v, path) - {path}
  }

  lemma LeafEdits(o: Overlay, path: Path, edit: Plain.Edit, through: Option<Errno>, ds: set<Path>, umask: Mode)
    requires o.Sound() && IsLeaf(o.View(), path)
    ensures ReplacesInPlace(o, path)
    ensures var plain := Plain.EditAt(o.View(), path, edit, through);
            Barred(o, path, plain) == plain
              && Anew(plain, ds + StagedAnew(o.View(), path, edit), umask) == Anew(plain, ds, umask)
    ensures var plain, staged := Anew(Plain.EditAt(o.View(), path, edit, through), ds, umask),
      StagedAnew(o.View(), path, edit);
            forall base, states, from, k, fault, v' ::
              CrashBehaviour(base, states, from, k, o, ds, umask, path, fault, plain, staged, o.View(), v') ==>
              CrashBehaviour(base, states, from, k, o, ds, umask, path, fault, plain, {}, o.View(), v')
  {
    ViewAt(o, path);
    ViewIsTree(o);
    var v, bare := o.View(), Plain.EditAt(o.View(), path, edit, through);
    forall q | q in StagedAnew(v, path, edit) ensures q == path {
      if q != path { assert Under(q, path); }
    }
    if bare.Done? {
      var new' := Remade(bare.tree, ds, umask);
      forall c: set<Path> | c <= StagedAnew(v, path, edit) ensures Remade(new', c, umask) == Remade(new', {}, umask) {}
      assert Remade(bare.tree, ds + StagedAnew(v, path, edit), umask) == new';
      NoDirectoryStaged(new', StagedAnew(v, path, edit), umask);
    }
  }

  lemma NoDirectoryStaged(new': Tree, staged: set<Path>, umask: Mode)
    requires forall c: set<Path> {:trigger Remade(new', c, umask)} | c <= staged ::
      Remade(new', c, umask) == Remade(new', {}, umask)
    ensures forall base, d :: RecoversNear(base, d, new', staged, umask) ==> RecoversNear(base, d, new', {}, umask)
  {
    hide RecoversTo, Remade;
    forall base, d | RecoversNear(base, d, new', staged, umask) ensures RecoversNear(base, d, new', {}, umask) {
      var c :| c <= staged && RecoversTo(base, d, Remade(new', c, umask));
      var none: set<Path> := {};
      assert none <= staged && RecoversTo(base, d, Remade(new', none, umask));
    }
  }

  /** Replacing an entry by its edited copy is the edit of one plain tree, but for the directories inside. */
  lemma EditAgrees(o: Overlay, path: Path, edit: Plain.Edit, through: Option<Errno>, ds: set<Path>, umask: Mode)
    requires o.Sound() && path in o.View() && OnTheWay(ds, path)
    ensures MutationOutcome(o, path, CopyAndEdit(path, edit, through), ds, umask) ==
            Anew(Barred(o, path, Plain.EditAt(o.View(), path, edit, through)), ds, umask)
    ensures Anew(Anew(Barred(o, path, Plain.EditAt(o.View(), path, edit, through)), ds, umask),
                 StagedAnew(o.View(), path, edit), umask) ==
            Anew(Barred(o, path, Plain.EditAt(o.View(), path, edit, through)), ds + StagedAnew(o.View(), path, edit),
                 umask)
    ensures Plain.ParentStatus(o.View(), path) == None
  {
    hide Overlay.View, Overlay.Lookup, Overlay.Sound, Remade, StagedAnew;
    var v, plan := o.View(), CopyAndEdit(path, edit, through);
    ViewIsTree(o);
    Plain.PresentHasParents(v, path);
    assert PlanStatus(plan, v, umask) == Plain.EditNode(v[path], edit, through).0;
    var plain := Plain.EditAt(v, path, edit, through);
    if plain.Done? {
      RemadeAround(v, path, ds, Plain.EditNode(v[path], edit, through).1, umask);
      RemadeTwice(plain.tree, ds, StagedAnew(v, path, edit), umask);
    }
  }

  lemma RemadeAround(v: Tree, path: Path, ds: set<Path>, n: Node, umask: Mode)
    requires path in v && OnTheWay(ds, path)
    ensures path in Remade(v, ds, umask) && Remade(v, ds, umask)[path] == v[path]
    ensures Remade(v, ds, umask)[path := n] == Remade(v[path := n], ds, umask)
  {
    assert path !in ds;
  }

  lemma EditedTree(v: Tree, path: Path, edit: Plain.Edit, through: Option<Errno>, umask: Mode)
    requires path in v && Plain.EditNode(v[path], edit, through).0 == None
    ensures Mutated(v, path, CopyAndEdit(path, edit, through), umask, None)
         == Remade(v[path := Plain.EditNode(v[path], edit, through).1], StagedAnew(v, path, edit), umask)
  {
    var plan := CopyAndEdit(path, edit, through);
    var l, r := Mutated(v, path, plan, umask, None),
      Remade(v[path := Plain.EditNode(v[path], edit, through).1], StagedAnew(v, path, edit), umask);
    forall q ensures (q in l <==> q in r) && (q in l ==> l[q] == r[q]) {
      if AtOrUnder(q, path) {
        CopiedAt(v, path, umask, q[|path|..]);
        assert path + q[|path|..] == q;
        assert q[|path|..] == [] <==> q == path;
      }
    }
    assert l == r;
  }
}
