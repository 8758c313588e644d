/**
  The durable states of a call: its single steps, and what a crash in each of them leaves.
 */
module CallStates {
  import opened Layers
  import opened OverlayLaws
  import opened Journal
  import opened Abandonment
  import Plain = PlainTree

  // Where a call is made to fail, and with which error: at a parent, before or after its mkdir; at an
  // entry of the staged copy; at a step of publication.
  datatype Fault = NoFault | ParentMkdir(level: nat, made: bool) | JournalWrite | JournalBegin | RecoveryDir
                 | StageCopy(at: Path, errno: Errno) | StageFlush | PhaseCommit | PublishCall(errno: Errno)

  ghost predicate Extends(a: seq<Disk>, b: seq<Disk>) {
    |a| <= |b| && forall i | 0 <= i < |a| :: b[i] == a[i]
  }

  // One durable step of an engine call of Workspace w.
  ghost predicate CallStep(w: Name, d: Disk, e: Disk) {
    Begins(w, d, e) || Works(d, e) || Commits(d, e) || Ends(d, e)
  }

  lemma Beginning(w: Name, d: Disk, op: Operation)
    requires d.journal == [] && op.id == d.nextId && op.workspace == w && op.phase.Prepared? && !Lifecycle(op.kind)
      && SoundRow(op)
    ensures CallStep(w, d, d.(journal := [op], nextId := op.id + 1))
  {
  }

  lemma Working(w: Name, d: Disk, files: Files)
    requires files.tombs == d.files.tombs
    ensures CallStep(w, d, d.(files := files))
  {
  }

  lemma Committing(w: Name, d: Disk, op: Operation)
    requires |d.journal| == 1 && op == d.journal[0].(phase := Publishing)
    ensures CallStep(w, d, d.(journal := [op]))
  {
  }

  lemma Ending(w: Name, d: Disk, tombs: set<Path>)
    requires |d.journal| == 1
    ensures CallStep(w, d, d.(journal := [])) && CallStep(w, d, d.(files := d.files.(tombs := tombs), journal := []))
  {
  }

  ghost predicate Begins(w: Name, d: Disk, e: Disk) {
    && d.journal == [] && |e.journal| == 1 && e.files == d.files && e.nextId == d.nextId + 1
    && e.journal[0].id == d.nextId && e.journal[0].workspace == w && e.journal[0].phase.Prepared?
         && !Lifecycle(e.journal[0].kind)
    && SoundRow(e.journal[0])
  }

  // Upper entries and staged entries come and go; rows do not.
  ghost predicate Works(d: Disk, e: Disk) {
    e.journal == d.journal && e.nextId == d.nextId && e.files.tombs == d.files.tombs
  }

  ghost predicate Commits(d: Disk, e: Disk) {
    |d.journal| == 1 && e == d.(journal := [d.journal[0].(phase := Publishing)])
  }

  ghost predicate Ends(d: Disk, e: Disk) {
    |d.journal| == 1 && e == d.(journal := [], files := d.files.(tombs := e.files.tombs))
  }

  // Crash atomicity of one call: a crash before state k leaves, after recovery, the old tree;
  // from state k on, which commits the publishing phase, it leaves the new one.
  ghost predicate CrashAtomic(base: Layer, states: seq<Disk>, from: nat, k: nat, v: Tree, v': Tree) {
    && from <= k <= |states|
    && (forall i | from <= i < k :: RecoversTo(base, states[i], v) && !Committed(states[i]))
    && (forall i | k <= i < |states| :: RecoversTo(base, states[i], v'))
    && (k < |states| ==> Committed(states[k]))
  }

  // d recovers to v, with some of the directories ds made anew.
  ghost predicate RecoversNear(base: Layer, d: Disk, v: Tree, ds: set<Path>, umask: Mode) {
    exists c: set<Path> :: c <= ds && RecoversTo(base, d, Remade(v, c, umask))
  }

  // Crash atomicity of a call that first copies the directories ds up, one by one.
  ghost predicate CallAtomic(base: Layer, states: seq<Disk>, from: nat, k: nat, v: Tree, ds: set<Path>, umask: Mode,
                             v': Tree) {
    && from <= k <= |states|
    && (forall i | from <= i < k :: RecoversNear(base, states[i], v, ds, umask) && !Committed(states[i]))
    && (forall i | k <= i < |states| :: RecoversTo(base, states[i], v'))
    && (k < |states| ==> Committed(states[k]))
  }

  // A removal that is given up after state k: each later state recovers to the old tree or to the new one.
  ghost predicate EitherTree(base: Layer, states: seq<Disk>, from: nat, k: nat, v: Tree, new': Tree) {
    && from <= k <= |states|
    && (forall i | from <= i < k :: RecoversTo(base, states[i], v) && !Committed(states[i]))
    && (forall i | k <= i < |states| :: RecoversTo(base, states[i], v) || RecoversTo(base, states[i], new'))
  }

  // A publication that is given up after state k.  Each state recovers to the old tree, or to the new one
  // with some of the directories `staged` made anew; but the last state with a record is refused if
  // nothing is at the path in the upper tree.
  ghost predicate GivenUpBehaviour(base: Layer, states: seq<Disk>, from: nat, k: nat, inUpper: bool, ds: set<Path>,
                                   umask: Mode, new': Tree, staged: set<Path>, v: Tree) {
    && from <= k && k + 3 <= |states| && Committed(states[k])
    && (forall i | from <= i < k :: RecoversNear(base, states[i], v, ds, umask) && !Committed(states[i]))
    && (forall i | k <= i < |states| && (inUpper || i != |states| - 2) ::
          RecoversNear(base, states[i], v, ds, umask) || RecoversNear(base, states[i], new', staged, umask))
    && (!inUpper ==> RefusedWith(states[|states| - 2], StageAndEntryMissing))
  }

  // An edit that the publishing rename refuses: from state k on a state is refused while its stage waits.
  ghost predicate BarredBehaviour(base: Layer, states: seq<Disk>, from: nat, k: nat, ds: set<Path>, umask: Mode,
                                  v: Tree) {
    && from <= k <= |states|
    && (forall i | from <= i < k :: RecoversNear(base, states[i], v, ds, umask) && !Committed(states[i]))
    && (forall i | k <= i < |states| ::
          if Waits(states[i]) then RefusedWith(states[i], CannotPublish)
            else RecoversNear(base, states[i], v, ds, umask))
    && (k < |states| ==> Committed(states[k]) && Waits(states[k]))
  }

  // What crashes can do to a staged call on `path` that, but for a fault, would end in `plain` with the
  // directories `staged` made anew: it is crash-atomic, unless its publication is given up.
  ghost predicate CrashBehaviour(base: Layer, states: seq<Disk>, from: nat, k: nat, o: Overlay, ds: set<Path>,
                                 umask: Mode, path: Path, fault: Fault, plain: Plain.Outcome, staged: set<Path>,
                                   v: Tree, v': Tree) {
    if fault.PublishCall? && plain.Done? then
      GivenUpBehaviour(base, states, from, k, path in o.upper, ds, umask, plain.tree, staged, v)
    else
      CallAtomic(base, states, from, k, v, ds, umask, v')
  }

  // The same on durable states: recovery ends in exactly the old, or exactly the new, upper tree and rows.
  ghost predicate DurablyAtomic(states: seq<Disk>, from: nat, k: nat, f: Files, g: Files) {
    && from <= k <= |states|
    && (forall i | from <= i < k :: Recovers(states[i], f.upper, f.tombs) && !Committed(states[i]))
    && (forall i | k <= i < |states| :: Recovers(states[i], g.upper, g.tombs))
  }

  /** If mkdir keeps the modes of the directories that are copied up, the call is atomic outright. */
  lemma CallAtomicExactly(base: Layer, states: seq<Disk>, from: nat, k: nat, v: Tree, ds: set<Path>, umask: Mode,
                          v': Tree)
    requires CallAtomic(base, states, from, k, v, ds, umask, v')
    requires forall d | d in ds && d in v && v[d].Dir? :: Stable(v[d].mode, umask)
    ensures CrashAtomic(base, states, from, k, v, v')
  {
    forall i | from <= i < k ensures RecoversTo(base, states[i], v) && !Committed(states[i]) {
      assert RecoversNear(base, states[i], v, ds, umask);
      var c :| c <= ds && RecoversTo(base, states[i], Remade(v, c, umask));
      RemadeIff(v, c, umask);
    }
  }

  /** A state that recovers can be reopened, and then shows that tree. */
  lemma Reopens(base: Layer, d: Disk, v: Tree, mode: Mode)
    requires RecoversTo(base, d, v)
    ensures Recover(d, mode).Ok?
    ensures var r := Recover(d, mode).value;
            && r.journal == [] && r.files.stages == map[]
            && Overlay(base, r.files.upper, r.files.tombs).Sound()
                 && Overlay(base, r.files.upper, r.files.tombs).View() == v
  {
    var upper, tombs :| Recovers(d, upper, tombs) && ShowsSoundly(base, upper, tombs, v);
    assert Recover(d, mode) == Ok(Disk(Files(upper, map[], tombs), [], d.nextId));
  }

  // The faults that a call cannot survive once it gets to them.
  predicate Fatal(fault: Fault) {
    fault.JournalWrite? || fault.JournalBegin? || fault.RecoveryDir? || fault.StageFlush? || fault.PhaseCommit?
      || fault.PublishCall?
  }

  // A call agrees with the reference: it fails as the reference fails, leaving `failed`, or succeeds with
  // its tree.  An injected fault may turn a success into a failure, and a fatal one does.
  ghost predicate Agrees(plain: Plain.Outcome, failed: Tree, fault: Fault, status: Option<Errno>, v': Tree) {
    && (status.None? ==> plain == Plain.Done(v') && !Fatal(fault))
    && (status.Some? ==> v' == failed)
    && (fault.NoFault? ==> (plain.Done? <==> status.None?) && (plain.Failed? ==> status == Some(plain.errno)))
  }

  // A removal has no stage, and nothing to remove from an upper tree that does not hold the path.
  predicate StopsRemoval(fault: Fault, inUpper: bool) {
    fault.JournalBegin? || fault.PhaseCommit? || (fault.PublishCall? && inUpper)
  }

  // The outcome with the directories of ds made anew.
  function Anew(plain: Plain.Outcome, ds: set<Path>, umask: Mode): Plain.Outcome {
    if plain.Done? then Plain.Done(Remade(plain.tree, ds, umask)) else plain
  }

  // The record, if there is one, is of a call on p.
  ghost predicate OwnRow(d: Disk, p: Path) {
    |d.journal| <= 1 && (d.journal != [] ==> d.journal[0].path == p)
  }

  // Nothing is published in these states.
  ghost predicate Unpublished(states: seq<Disk>, from: nat, to: int, f: Files, path: Path) {
    from <= to <= |states| && forall i | from <= i < to ::
      OwnRow(states[i], path) && (path != [] ==> Preparing(states[i], f))
  }

  lemma UnpublishedPrepares(states: seq<Disk>, from: nat, to: int, f: Files, path: Path)
    requires Unpublished(states, from, to, f, path) && path != []
    ensures forall i | from <= i < to :: Preparing(states[i], f)
  {
  }

  lemma NothingStaged(states: seq<Disk>, f: Files, path: Path)
    ensures Unpublished(states, |states|, |states|, f, path)
  {
  }

  lemma SameStates(states: seq<Disk>, longer: seq<Disk>, from: nat, to: nat, f: Files, path: Path)
    requires Extends(states, longer) && to <= |states| && Unpublished(states, from, to, f, path)
    ensures Unpublished(longer, from, to, f, path)
  {
  }

  lemma LaterRows(states: seq<Disk>, k: nat, f: Files, op: Operation, stage: Layer)
    ensures k <= |states| && (forall i | k <= i < |states| :: GoingForward(states[i], f, op, stage)) ==>
      forall i | k <= i < |states| :: OwnRow(states[i], op.path)
    ensures GivenUp(states, k, f, op, stage) ==> forall i | k <= i < |states| :: OwnRow(states[i], op.path)
  {
  }

  /** A call whose states follow the protocol is crash-atomic. */
  lemma ProtocolIsAtomic(base: Layer, states: seq<Disk>, from: nat, k: nat, f: Files, op: Operation, stage: Layer,
                         v: Tree, v': Tree)
    requires from <= k <= |states| && ShowsSoundly(base, f.upper, f.tombs, v)
    requires forall i | from <= i < k :: Preparing(states[i], f)
    requires k < |states| ==> states[k].journal != [] && CanGoForward(f, op, stage)
    requires k < |states| ==> ShowsSoundly(base, CompleteUpper(f.upper, op, stage), StoredTombs(f.tombs, op), v')
    requires forall i | k <= i < |states| :: GoingForward(states[i], f, op, stage)
    ensures CrashAtomic(base, states, from, k, v, v')
  {
    forall i | from <= i < k ensures RecoversTo(base, states[i], v) && !Committed(states[i]) {
      PreparingRollsBack(states[i], f);
    }
    if k < |states| {
      forall i | k <= i < |states| ensures RecoversTo(base, states[i], v') {
        ForwardCompletes(states[i], f, op, stage);
      }
      ForwardCompletes(states[k], f, op, stage);
    }
  }

  /** Whatever the operation makes visible, its durable states are the old ones, then the completed ones. */
  lemma ProtocolIsDurable(states: seq<Disk>, from: nat, k: nat, f: Files, op: Operation, stage: Layer, g: Files)
    requires from <= k <= |states|
    requires forall i | from <= i < k :: Preparing(states[i], f)
    requires k < |states| ==> CanGoForward(f, op, stage)
    requires k < |states| ==> g.upper == CompleteUpper(f.upper, op, stage) && g.tombs == StoredTombs(f.tombs, op)
    requires forall i | k <= i < |states| :: GoingForward(states[i], f, op, stage)
    ensures DurablyAtomic(states, from, k, f, g)
  {
    forall i | from <= i < k ensures Recovers(states[i], f.upper, f.tombs) && !Committed(states[i]) {
      PreparingRollsBack(states[i], f);
    }
    forall i | k <= i < |states| ensures Recovers(states[i], g.upper, g.tombs) {
      ForwardCompletes(states[i], f, op, stage);
    }
  }

  // A call that ends while parents are copied up leaves the tree that the last copy left.
  lemma FailedInTime(base: Layer, states: seq<Disk>, from: nat, v: Tree, ds: set<Path>, umask: Mode)
    requires from <= |states| && forall i | from <= i < |states| ::
      RecoversNear(base, states[i], v, ds, umask) && !Committed(states[i])
    ensures forall v' :: CallAtomic(base, states, from, |states|, v, ds, umask, v')
  {
  }

  lemma ExactIsCall(base: Layer, states: seq<Disk>, from: nat, k: nat, v: Tree, umask: Mode, v': Tree)
    requires CrashAtomic(base, states, from, k, v, v')
    ensures CallAtomic(base, states, from, k, v, {}, umask, v')
  {
    RemadeNothing(v, umask);
    forall i | from <= i < k ensures RecoversNear(base, states[i], v, {}, umask) {
      assert RecoversTo(base, states[i], Remade(v, {}, umask));
    }
  }

  lemma NearAgain(base: Layer, d: Disk, v: Tree, ds: set<Path>, umask: Mode)
    requires RecoversNear(base, d, Remade(v, ds, umask), {}, umask)
    ensures RecoversNear(base, d, v, ds, umask)
  {
    RemadeNothing(Remade(v, ds, umask), umask);
    assert RecoversTo(base, d, Remade(v, ds, umask));
  }

  // Copy-up, then a publication that starts from the tree it left.
  ghost predicate CopiedFirst(base: Layer, mid: seq<Disk>, states: seq<Disk>, from: nat, v: Tree, ds: set<Path>,
                              umask: Mode) {
    && from <= |mid| && Extends(mid, states)
    && forall i | from <= i < |mid| :: RecoversNear(base, mid[i], v, ds, umask) && !Committed(mid[i])
  }

  lemma JoinAtomic(base: Layer, mid: seq<Disk>, states: seq<Disk>, from: nat, k: nat, v: Tree, ds: set<Path>,
                   umask: Mode, v': Tree)
    requires CopiedFirst(base, mid, states, from, v, ds, umask)
    requires CallAtomic(base, states, |mid|, k, Remade(v, ds, umask), {}, umask, v')
    ensures CallAtomic(base, states, from, k, v, ds, umask, v')
  {
    hide RecoversNear, RecoversTo, Committed;
    forall i | |mid| <= i < k ensures RecoversNear(base, states[i], v, ds, umask) {
      NearAgain(base, states[i], v, ds, umask);
    }
  }

  lemma JoinGivenUp(base: Layer, mid: seq<Disk>, states: seq<Disk>, from: nat, k: nat, inUpper: bool, ds: set<Path>,
                    umask: Mode, new': Tree, staged: set<Path>, v: Tree)
    requires CopiedFirst(base, mid, states, from, v, ds, umask)
    requires GivenUpBehaviour(base, states, |mid|, k, inUpper, {}, umask, new', staged, Remade(v, ds, umask))
    ensures GivenUpBehaviour(base, states, from, k, inUpper, ds, umask, new', staged, v)
  {
    hide RecoversNear, RecoversTo, Committed, RefusedWith;
    forall i | |mid| <= i < |states|
      ensures RecoversNear(base, states[i], Remade(v, ds, umask), {}, umask) ==>
      RecoversNear(base, states[i], v, ds, umask) {
      if RecoversNear(base, states[i], Remade(v, ds, umask), {}, umask) { NearAgain(base, states[i], v, ds, umask); }
    }
  }

  lemma JoinBehaviour(base: Layer, mid: seq<Disk>, states: seq<Disk>, from: nat, k: nat, o: Overlay, p: Overlay,
                      ds: set<Path>, umask: Mode, path: Path, fault: Fault, plain: Plain.Outcome, staged: set<Path>,
                        v': Tree)
    requires CopiedFirst(base, mid, states, from, o.View(), ds, umask)
    requires path in p.upper <==> path in o.upper
    requires CrashBehaviour(base, states, |mid|, k, p, {}, umask, path, fault, plain, staged,
                            Remade(o.View(), ds, umask), v')
    ensures CrashBehaviour(base, states, from, k, o, ds, umask, path, fault, plain, staged, o.View(), v')
  {
    hide CallAtomic, GivenUpBehaviour;
    if fault.PublishCall? && plain.Done? {
      JoinGivenUp(base, mid, states, from, k, path in o.upper, ds, umask, plain.tree, staged, o.View());
    } else {
      JoinAtomic(base, mid, states, from, k, o.View(), ds, umask, v');
    }
  }

  lemma JoinBarred(base: Layer, mid: seq<Disk>, states: seq<Disk>, from: nat, k: nat, v: Tree, ds: set<Path>,
                   umask: Mode)
    requires CopiedFirst(base, mid, states, from, v, ds, umask)
    requires BarredBehaviour(base, states, |mid|, k, {}, umask, Remade(v, ds, umask))
    ensures BarredBehaviour(base, states, from, k, ds, umask, v)
  {
    hide RecoversNear, RecoversTo, Committed, RefusedWith;
    forall i | |mid| <= i < |states|
      ensures RecoversNear(base, states[i], Remade(v, ds, umask), {}, umask) ==>
      RecoversNear(base, states[i], v, ds, umask) {
      if RecoversNear(base, states[i], Remade(v, ds, umask), {}, umask) { NearAgain(base, states[i], v, ds, umask); }
    }
  }

  /** A record for the view root is refused, and nothing else about such a call is. */
  lemma RootRefused(states: seq<Disk>, from: nat)
    requires forall i | from <= i < |states| :: OwnRow(states[i], [])
    ensures forall i | from <= i < |states| :: states[i].journal != [] <==> RefusedWith(states[i], UnsafePath)
  {
    forall i | from <= i < |states| ensures states[i].journal != [] <==> RefusedWith(states[i], UnsafePath) {
      var d := states[i];
      if d.journal != [] {
        RefusedOne(d, d.journal[0], UnsafePath);
      } else {
        RecoverIdle(d);
        if RefusedWith(d, UnsafePath) { NotRecovered(d, UnsafePath, d.files.upper, d.files.tombs); }
      }
    }
  }

  // Copy-up, and then a publication that is given up before its commit.
  lemma NearAfter(base: Layer, mid: seq<Disk>, states: seq<Disk>, from: nat, v: Tree, p: Overlay, ds: set<Path>,
                  umask: Mode, f: Files, path: Path)
    requires CopiedFirst(base, mid, states, from, v, ds, umask) && path != []
    requires p.Sound() && p.base == base && f.upper == p.upper && f.tombs == p.tombs && p.View() == Remade(v, ds, umask)
    requires Unpublished(states, |mid|, |states|, f, path)
    ensures forall i | from <= i < |states| :: RecoversNear(base, states[i], v, ds, umask) && !Committed(states[i])
  {
    hide RecoversTo, Committed, Preparing, Overlay.View, Overlay.Sound, Remade;
    UnpublishedPrepares(states, |mid|, |states|, f, path);
    forall i | |mid| <= i < |states| ensures RecoversNear(base, states[i], v, ds, umask) && !Committed(states[i]) {
      PreparingShows(base, states[i], p, f);
    }
  }

  lemma PreparingShows(base: Layer, d: Disk, o: Overlay, f: Files)
    requires o.Sound() && o.base == base && f.upper == o.upper && f.tombs == o.tombs && Preparing(d, f)
    ensures RecoversTo(base, d, o.View()) && !Committed(d)
  {
    PreparingRollsBack(d, f);
    assert ShowsSoundly(base, f.upper, f.tombs, o.View());
  }

  lemma GivenUpState(states: seq<Disk>, k: nat, f: Files, op: Operation, stage: Layer, i: nat)
    requires GivenUp(states, k, f, op, stage) && k <= i < |states|
    ensures Abandoning(states[i], f, op, stage)
    ensures i < |states| - 2 ==> Waits(states[i]) && Committed(states[i])
    ensures i == |states| - 2 ==> states[i].journal != [] && !Waits(states[i])
    ensures i == |states| - 1 ==> states[i].journal == []
  {
    if k < i < |states| - 2 { assert LosesOne(states[i - 1], states[i]); }
    if i < |states| - 2 { assert states[i].journal[0].phase.Publishing?; }
  }

  lemma NearBefore(base: Layer, mid: seq<Disk>, states: seq<Disk>, from: nat, k: nat, v: Tree, ds: set<Path>,
                   umask: Mode)
    requires CopiedFirst(base, mid, states, from, v, ds, umask) && k <= |states|
    requires forall i | |mid| <= i < k :: RecoversTo(base, states[i], Remade(v, ds, umask)) && !Committed(states[i])
    ensures forall i | from <= i < k :: RecoversNear(base, states[i], v, ds, umask) && !Committed(states[i])
  {
    hide RecoversTo, Committed;
  }
}
