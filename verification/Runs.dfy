/**
  Whole runs: calls, injected faults, crashes at any durable step, restarts.  Every call that
  was answered with success is kept, in order; every one that failed has left nothing; one that
  was cut short took place or did not.
 */
module Runs {
  import opened Layers
  import opened OverlayLaws
  import opened Journal
  import opened Staging
  import opened Abandonment
  import opened CallStates
  import opened CopyUp
  import opened StageStates
  import opened InPlace
  import opened Renames
  import opened Engine
  import Plain = PlainTree
  import Listings

  datatype Call =
    | Create(path: Path, mode: Mode)
    | Mkdir(path: Path, mode: Mode)
    | Symlink(target: string, path: Path)
    | Write(path: Path, offset: nat, bytes: seq<Byte>, through: Option<Errno>)
    | Truncate(path: Path, size: nat, through: Option<Errno>)
    | Chmod(path: Path, mode: Mode, through: Option<Errno>)
    | Utimens(path: Path, through: Option<Errno>)
    | Unlink(path: Path)
    | Rmdir(path: Path)
    | Rename(from: Path, to: Path)

  // A call, where it is made to fail, after how many of its durable steps the process dies, if it does,
  // and what Git then answers.
  datatype Event = Event(call: Call, fault: Fault, crash: Option<nat>, git: bool)

  datatype Reply = Answered(status: Option<Errno>) | Cut

  // What the call means on one plain tree.  A write goes through a handle to whatever is at its path by now.
  function Meant(v: Tree, call: Call, umask: Mode): Plain.Outcome {
    match call
    case Create(p, m) => Plain.Create(v, p, File(Masked(m, umask), []))
    case Mkdir(p, m) => Plain.Create(v, p, Dir(MaskedDir(m, umask)))
    case Symlink(t, p) => Plain.Create(v, p, Link(t))
    case Write(p, offset, bytes, through) => Plain.WriteHandle(v, p, offset, bytes, through)
    case Truncate(p, size, through) => Plain.EditAt(v, p, Plain.Resize(size), through)
    case Chmod(p, m, through) => Plain.EditAt(v, p, Plain.SetMode(m), through)
    case Utimens(p, through) => Plain.EditAt(v, p, Plain.SetTimes, through)
    case Unlink(p) => Plain.Unlink(v, p)
    case Rmdir(p) => Plain.Rmdir(v, p)
    case Rename(from, to) => Plain.Rename(v, from, to)
  }

  // The tree after those of the calls that took place.
  function Folded(v: Tree, events: seq<Event>, took: seq<bool>, umask: Mode): Tree
    requires |took| <= |events|
    decreases |took|
  {
    if took == [] then v
    else
      var n := |took| - 1;
      var w := Folded(v, events, took[..n], umask);
      if took[n] && Meant(w, events[n].call, umask).Done? then Meant(w, events[n].call, umask).tree else w
  }

  // w is v, but for directories that mkdir made anew.
  ghost predicate MadeAnew(v: Tree, w: Tree, umask: Mode) {
    v.Keys == w.Keys && forall p {:trigger w[p]} | p in w :: w[p] == v[p] || w[p] == CopiedNode(v[p], umask)
  }

  // ----- the reference does not see which directories were made anew -----

  lemma AnewAgain(v: Tree, w: Tree, ds: set<Path>, umask: Mode)
    requires MadeAnew(v, w, umask)
    ensures MadeAnew(v, Remade(w, ds, umask), umask)
  {
    var u := Remade(w, ds, umask);
    forall p | p in u ensures u[p] == v[p] || u[p] == CopiedNode(v[p], umask) {
      if v[p].Dir? { assert MaskedDir(MaskedDir(v[p].mode, umask), umask) == MaskedDir(v[p].mode, umask); }
    }
  }

  lemma AnewKinds(v: Tree, w: Tree, umask: Mode)
    requires MadeAnew(v, w, umask)
    ensures SameKinds(v, w) && forall p :: HasChild(v, p) <==> HasChild(w, p)
  {
  }

  lemma SameParents(v: Tree, w: Tree, p: Path)
    requires SameKinds(v, w)
    ensures Plain.ParentStatus(v, p) == Plain.ParentStatus(w, p)
    decreases |p|
  {
    if |p| > 1 {
      SameParents(v, w, Parent(p));
      assert Parent(p) in w ==> (v[Parent(p)].Dir? <==> w[Parent(p)].Dir?);
    }
  }

  // Two outcomes that differ in directories made anew only.
  ghost predicate Alike(a: Plain.Outcome, b: Plain.Outcome, umask: Mode) {
    if a.Done? then b.Done? && MadeAnew(a.tree, b.tree, umask) else a == b
  }

  lemma CreateAlike(v: Tree, w: Tree, p: Path, n: Node, umask: Mode)
    requires MadeAnew(v, w, umask)
    ensures Alike(Plain.Create(v, p, n), Plain.Create(w, p, n), umask)
  {
    AnewKinds(v, w, umask);
    SameParents(v, w, p);
    assert MadeAnew(v[p := n], w[p := n], umask);
  }

  lemma RemoveAlike(v: Tree, w: Tree, p: Path, umask: Mode)
    requires MadeAnew(v, w, umask)
    ensures Alike(Plain.Unlink(v, p), Plain.Unlink(w, p), umask) && Alike(Plain.Rmdir(v, p), Plain.Rmdir(w, p), umask)
  {
    AnewKinds(v, w, umask);
    assert MadeAnew(v - {p}, w - {p}, umask);
    assert p in w ==> (v[p].Dir? <==> w[p].Dir?);
  }

  lemma EditAlike(v: Tree, w: Tree, p: Path, e: Plain.Edit, through: Option<Errno>, umask: Mode)
    requires MadeAnew(v, w, umask)
    ensures Alike(Plain.EditAt(v, p, e, through), Plain.EditAt(w, p, e, through), umask)
  {
    if p in v {
      assert w[p] == v[p] || w[p] == CopiedNode(v[p], umask);
      var a, b := Plain.EditNode(v[p], e, through).1, Plain.EditNode(w[p], e, through).1;
      assert b == a || b == CopiedNode(a, umask);
      assert MadeAnew(v[p := a], w[p := b], umask);
    }
  }

  lemma HandleAlike(v: Tree, w: Tree, p: Path, offset: nat, bytes: seq<Byte>, through: Option<Errno>, umask: Mode)
    requires MadeAnew(v, w, umask)
    ensures Alike(Plain.WriteHandle(v, p, offset, bytes, through), Plain.WriteHandle(w, p, offset, bytes, through),
                  umask)
  {
    hide Plain.EditAt;
    AnewKinds(v, w, umask);
    SameParents(v, w, p);
    EditAlike(v, w, p, Plain.WriteAt(offset, bytes), through, umask);
  }

  lemma MoveAlike(v: Tree, w: Tree, from: Path, to: Path, umask: Mode)
    requires MadeAnew(v, w, umask)
    ensures MadeAnew(Plain.Moved(v, from, to), Plain.Moved(w, from, to), umask)
  {
    var a, b := Plain.Moved(v, from, to), Plain.Moved(w, from, to);
    forall q ensures (q in a <==> q in b) && (q in b ==> b[q] == a[q] || b[q] == CopiedNode(a[q], umask)) {
      MovedAt(v, from, to, q);
      MovedAt(w, from, to, q);
      var p := if AtOrUnder(q, to) then from + q[|to|..] else q;
      assert p in v <==> p in w;
      assert p in w ==> w[p] == v[p] || w[p] == CopiedNode(v[p], umask);
    }
    assert a.Keys == b.Keys;
  }

  lemma RenameAlike(v: Tree, w: Tree, from: Path, to: Path, umask: Mode)
    requires MadeAnew(v, w, umask)
    ensures Alike(Plain.Rename(v, from, to), Plain.Rename(w, from, to), umask)
  {
    hide Plain.Moved, HasChild;
    AnewKinds(v, w, umask);
    SameParents(v, w, to);
    MoveAlike(v, w, from, to, umask);
    assert from in w ==> (v[from].Dir? <==> w[from].Dir?);
    assert to in w ==> (v[to].Dir? <==> w[to].Dir?);
  }

  /** The reference carries trees that differ in directories made anew to such trees again, and fails alike. */
  lemma MeantAlike(v: Tree, w: Tree, call: Call, umask: Mode)
    requires MadeAnew(v, w, umask)
    ensures Alike(Meant(v, call, umask), Meant(w, call, umask), umask)
  {
    hide MadeAnew, Alike, Plain.Create, Plain.EditAt, Plain.WriteHandle, Plain.Unlink, Plain.Rmdir, Plain.Rename;
    match call
    case Create(p, m) => CreateAlike(v, w, p, File(Masked(m, umask), []), umask);
    case Mkdir(p, m) => CreateAlike(v, w, p, Dir(MaskedDir(m, umask)), umask);
    case Symlink(t, p) => CreateAlike(v, w, p, Link(t), umask);
    case Write(p, offset, bytes, through) => HandleAlike(v, w, p, offset, bytes, through, umask);
    case Truncate(p, size, through) => EditAlike(v, w, p, Plain.Resize(size), through, umask);
    case Chmod(p, m, through) => EditAlike(v, w, p, Plain.SetMode(m), through, umask);
    case Utimens(p, through) => EditAlike(v, w, p, Plain.SetTimes, through, umask);
    case Unlink(p) => RemoveAlike(v, w, p, umask);
    case Rmdir(p) => RemoveAlike(v, w, p, umask);
    case Rename(from, to) => RenameAlike(v, w, from, to, umask);
  }

  // ----- where a run can leave the reference -----

  // A success that leaves the reference: a rename that uncovers Base entries or loses rows, and a change
  // of the root while listings of directories below it are cached.
  predicate Strays(o: Overlay, cache: map<Path, map<Name, Listings.DirEntry>>, call: Call, fault: Fault) {
    && !Fatal(fault) && Meant(o.View(), call, 0).Done?
    && match call
       case Rename(from, to) => from != to && !(CleanRename(o, from, to) && NoFoldClash(AddTomb(o, from), to))
       case Chmod(p, _, _) => p == [] && ReplacesInPlace(o, p) && !NothingListedBelow(cache)
       case Utimens(p, _) => p == [] && ReplacesInPlace(o, p) && !NothingListedBelow(cache)
       case _ => false
  }

  // A call whose crash recovery may refuse, or complete wrongly: a record of the root, a copy that waits
  // for a directory it cannot replace, and a publication that is given up with nothing in its place.
  predicate Exposed(o: Overlay, call: Call, fault: Fault) {
    match call
    case Rename(from, to) => fault.PublishCall? && from != to && Plain.Rename(o.View(), from, to).Done?
    case Unlink(_) => false
    case Rmdir(_) => false
    case Chmod(p, m, through) => ExposedEdit(o, p, Plain.SetMode(m), through, fault)
    case Utimens(p, through) => ExposedEdit(o, p, Plain.SetTimes, through, fault)
    case _ => fault.PublishCall? && call.path !in o.upper && Meant(o.View(), call, 0).Done?
  }

  predicate ExposedEdit(o: Overlay, p: Path, edit: Plain.Edit, through: Option<Errno>, fault: Fault) {
    && p in o.View()
    && if p == [] then !fault.JournalWrite? && !fault.JournalBegin?
       else if ReplacesInPlace(o, p)
         then fault.PublishCall? && p !in o.upper && Plain.EditAt(o.View(), p, edit, through).Done?
       else ReachesCommit(CopyAndEdit(p, edit, through), o.View(), 0, fault)
  }

  predicate Shortfall(o: Overlay, cache: map<Path, map<Name, Listings.DirEntry>>, event: Event) {
    Strays(o, cache, event.call, event.fault) || (event.crash.Some? && Exposed(o, event.call, event.fault))
  }

  lemma ReachesAnyUmask(p: Path, edit: Plain.Edit, through: Option<Errno>, v: Tree, umask: Mode, fault: Fault)
    requires p in v
    ensures ReachesCommit(CopyAndEdit(p, edit, through), v, umask, fault) <==>
      ReachesCommit(CopyAndEdit(p, edit, through), v, 0, fault)
  {
  }

  lemma MeantAnyUmask(v: Tree, call: Call, umask: Mode)
    ensures Meant(v, call, umask).Done? <==> Meant(v, call, 0).Done?
  {
  }

  // d recovers to the old tree or to the one the call means, but for directories made anew.
  ghost predicate Recoverable(base: Layer, d: Disk, v: Tree, plain: Plain.Outcome, umask: Mode) {
    exists t :: RecoversTo(base, d, t) && (MadeAnew(v, t, umask) || (plain.Done? && MadeAnew(plain.tree, t, umask)))
  }

  // What a call may leave behind, however it ended.
  ghost predicate Answers(v: Tree, plain: Plain.Outcome, status: Option<Errno>, v': Tree, umask: Mode) {
    if status.Some? then MadeAnew(v, v', umask) else plain.Done? && MadeAnew(plain.tree, v', umask)
  }

  // Without a fault a call fails as the reference does, and otherwise only where the upper tree holds the
  // directory to be replaced non-empty.
  predicate Honest(plain: Plain.Outcome, call: Call, fault: Fault, status: Option<Errno>) {
    fault.NoFault? ==>
      if plain.Failed? then status == Some(plain.errno)
      else status.None? || ((call.Chmod? || call.Utimens?) && status == Some(ENOTEMPTY))
  }

  lemma NothingAnew(v: Tree, umask: Mode)
    ensures MadeAnew(v, v, umask)
  {
  }

  lemma AnswerOf(v: Tree, plain: Plain.Outcome, copied: set<Path>, made: set<Path>, fault: Fault,
                 status: Option<Errno>, v': Tree, umask: Mode)
    requires Agrees(Anew(plain, made, umask), Remade(v, copied, umask), fault, status, v')
    ensures Answers(v, plain, status, v', umask)
  {
    NothingAnew(v, umask);
    AnewAgain(v, v, copied, umask);
    if plain.Done? {
      NothingAnew(plain.tree, umask);
      AnewAgain(plain.tree, plain.tree, made, umask);
    }
  }

  lemma NearIsRecoverable(base: Layer, d: Disk, v: Tree, u: Tree, ds: set<Path>, plain: Plain.Outcome, umask: Mode)
    requires RecoversNear(base, d, u, ds, umask)
      && (MadeAnew(v, u, umask) || (plain.Done? && MadeAnew(plain.tree, u, umask)))
    ensures Recoverable(base, d, v, plain, umask)
  {
    var c :| c <= ds && RecoversTo(base, d, Remade(u, c, umask));
    if MadeAnew(v, u, umask) { AnewAgain(v, u, c, umask); } else { AnewAgain(plain.tree, u, c, umask); }
  }

  lemma CallRecoverable(base: Layer, states: seq<Disk>, from: nat, k: nat, v: Tree, ds: set<Path>, umask: Mode,
                        plain: Plain.Outcome, status: Option<Errno>, v': Tree)
    requires CallAtomic(base, states, from, k, v, ds, umask, v') && Answers(v, plain, status, v', umask)
    ensures forall i | from <= i < |states| :: Recoverable(base, states[i], v, plain, umask)
  {
    hide RecoversNear, RecoversTo, Committed, MadeAnew;
    NothingAnew(v, umask);
    forall i | from <= i < |states| ensures Recoverable(base, states[i], v, plain, umask) {
      if i < k { NearIsRecoverable(base, states[i], v, v, ds, plain, umask); }
    }
  }

  lemma BehaviourRecoverable(base: Layer, states: seq<Disk>, from: nat, k: nat, o: Overlay, ds: set<Path>, umask: Mode,
                             path: Path, fault: Fault, plain: Plain.Outcome, staged: set<Path>, status: Option<Errno>,
                               v': Tree)
    requires CrashBehaviour(base, states, from, k, o, ds, umask, path, fault, Anew(plain, ds, umask), staged, o.View(),
                            v')
    requires Answers(o.View(), plain, status, v', umask) && (fault.PublishCall? && plain.Done? ==> path in o.upper)
    ensures forall i | from <= i < |states| :: Recoverable(base, states[i], o.View(), plain, umask)
  {
    hide RecoversNear, RecoversTo, Committed, MadeAnew, CallAtomic, Remade, Overlay.View;
    var v := o.View();
    if fault.PublishCall? && plain.Done? {
      NothingAnew(v, umask);
      NothingAnew(plain.tree, umask);
      AnewAgain(plain.tree, plain.tree, ds, umask);
      forall i | from <= i < |states| ensures Recoverable(base, states[i], v, plain, umask) {
        if RecoversNear(base, states[i], v, ds, umask) {
          NearIsRecoverable(base, states[i], v, v, ds, plain, umask);
        } else {
          NearIsRecoverable(base, states[i], v, Remade(plain.tree, ds, umask), staged, plain, umask);
        }
      }
    } else {
      CallRecoverable(base, states, from, k, v, ds, umask, plain, status, v');
    }
  }

  lemma BarredRecoverable(base: Layer, states: seq<Disk>, from: nat, k: nat, v: Tree, ds: set<Path>, umask: Mode,
                          plain: Plain.Outcome)
    requires BarredBehaviour(base, states, from, k, ds, umask, v) && k >= |states|
    ensures forall i | from <= i < |states| :: Recoverable(base, states[i], v, plain, umask)
  {
    hide RecoversNear, MadeAnew;
    NothingAnew(v, umask);
    forall i | from <= i < |states| ensures Recoverable(base, states[i], v, plain, umask) {
      NearIsRecoverable(base, states[i], v, v, ds, plain, umask);
    }
  }

  lemma NoRootRecord(o: Overlay, edit: Plain.Edit, through: Option<Errno>, fault: Fault)
    ensures [] in o.View() && !ExposedEdit(o, [], edit, through, fault) ==> fault.JournalWrite? || fault.JournalBegin?
  {
  }

  lemma EditRecoverable(base: Layer, states: seq<Disk>, from: nat, k: nat, o: Overlay, ds: set<Path>,
                        staged: set<Path>, umask: Mode, path: Path, edit: Plain.Edit, through: Option<Errno>,
                          fault: Fault, status: Option<Errno>, v': Tree)
    requires path in o.View() && path != [] && !ExposedEdit(o, path, edit, through, fault)
    requires var plain := Plain.EditAt(o.View(), path, edit, through);
             && Answers(o.View(), plain, status, v', umask)
             && (ReplacesInPlace(o, path) ==>
                   CrashBehaviour(base, states, from, k, o, ds, umask, path, fault, Anew(plain, ds, umask), staged,
                                  o.View(), v'))
    requires !ReplacesInPlace(o, path) ==> BarredBehaviour(base, states, from, k, ds, umask, o.View())
    requires k < |states| ==> ReachesCommit(CopyAndEdit(path, edit, through), o.View(), umask, fault)
    ensures forall i | from <= i < |states| ::
      Recoverable(base, states[i], o.View(), Plain.EditAt(o.View(), path, edit, through), umask)
  {
    hide CrashBehaviour, BarredBehaviour, Answers, Recoverable, ReachesCommit, Overlay.View, Plain.EditAt, Remade;
    var plain := Plain.EditAt(o.View(), path, edit, through);
    if ReplacesInPlace(o, path) {
      BehaviourRecoverable(base, states, from, k, o, ds, umask, path, fault, plain, staged, status, v');
    } else {
      ReachesAnyUmask(path, edit, through, o.View(), umask, fault);
      BarredRecoverable(base, states, from, k, o.View(), ds, umask, plain);
    }
  }

  lemma RemovalRecoverable(base: Layer, states: seq<Disk>, from: nat, k: nat, v: Tree, plain: Plain.Outcome,
                           umask: Mode, status: Option<Errno>, v': Tree)
    requires Answers(v, plain, status, v', umask)
    requires CrashAtomic(base, states, from, k, v, v')
      || (plain.Done? && EitherTree(base, states, from, k, v, plain.tree))
    ensures forall i | from <= i < |states| :: Recoverable(base, states[i], v, plain, umask)
  {
    hide RecoversTo, Committed, MadeAnew;
    NothingAnew(v, umask);
    if plain.Done? { NothingAnew(plain.tree, umask); }
  }

  // ----- one call -----

  // What the answer says is what the tree shows, and a crash at any of the call's steps leaves the old
  // tree or the one the call means.
  twostate predicate Performed(engine: WorkspaceEngine, call: Call, fault: Fault, new status: Option<Errno>)
    reads engine
  {
    var o, plain := old(engine.Now()), Meant(old(engine.View()), call, engine.umask);
    var strays := Strays(o, old(engine.cache), call, fault);
    && Extends(old(engine.trace), engine.trace) && Honest(plain, call, fault, status)
    && (status.Some? || !strays ==>
        engine.Consistent() && engine.InSync() && Answers(o.View(), plain, status, engine.View(), engine.umask))
    && (!strays && !Exposed(o, call, fault) ==>
          forall i | |old(engine.trace)| <= i < |engine.trace| ::
            Recoverable(engine.base, engine.trace[i], o.View(), plain, engine.umask))
  }

  method AddsEntry(engine: WorkspaceEngine, call: Call, fault: Fault) returns (status: Option<Errno>)
    requires engine.Consistent() && engine.InSync() && (call.Create? || call.Mkdir? || call.Symlink?)
    modifies engine`disk, engine`trace, engine`tombstones, engine`cache
    ensures Performed(engine, call, fault, status)
  {
    hide CrashBehaviour, Recoverable, Answers, Remade, MadeAnew, Overlay.View, Overlay.Sound, Plain.Create,
      CopiedParents;
    ghost var o, umask, from, k := engine.Now(), engine.umask, |engine.trace|, 0;
    ghost var plain, ds := Meant(engine.View(), call, umask), CreateCopies(o, call.path, fault);
    match call {
      case Create(p, m) => status, k := engine.Create(p, m, fault);
      case Mkdir(p, m) => status, k := engine.Mkdir(p, m, fault);
      case Symlink(t, p) => status, k := engine.Symlink(t, p, fault);
    }
    AnswerOf(o.View(), plain, ds, ds, fault, status, engine.View(), umask);
    MeantAnyUmask(o.View(), call, umask);
    if !Exposed(o, call, fault) {
      BehaviourRecoverable(engine.base, engine.trace, from, k, o, ds, umask, call.path, fault, plain, {}, status,
                           engine.View());
    }
  }

  method EditsLeaf(engine: WorkspaceEngine, call: Call, fault: Fault) returns (status: Option<Errno>)
    requires engine.Consistent() && engine.InSync() && (call.Write? || call.Truncate?)
    modifies engine`disk, engine`trace, engine`tombstones, engine`cache
    ensures Performed(engine, call, fault, status)
  {
    hide CrashBehaviour, Recoverable, Answers, Remade, MadeAnew, Overlay.View, Overlay.Sound, Plain.EditAt,
      Plain.WriteHandle, CopiedParents;
    ghost var o, umask, from, k := engine.Now(), engine.umask, |engine.trace|, 0;
    ghost var plain := Meant(engine.View(), call, umask);
    ghost var ds := if call.Write? then CopiedParents(o, call.path, fault) else EditCopies(o, call.path, fault);
    MeantAnyUmask(o.View(), call, umask);
    if call.Write? {
      if call.path == [] {
        NothingMoved(o.View(), plain, umask);
        NoWriteToRoot(o.View(), call.offset, call.bytes, call.through);
        return Some(EISDIR);
      }
      status, k := engine.WriteOpened(call.path, call.offset, call.bytes, call.through, fault);
    } else {
      status, k := engine.Truncate(call.path, call.size, call.through, fault);
    }
    AnswerOf(o.View(), plain, ds, ds, fault, status, engine.View(), umask);
    if !Exposed(o, call, fault) {
      BehaviourRecoverable(engine.base, engine.trace, from, k, o, ds, umask, call.path, fault, plain, {}, status,
                           engine.View());
    }
  }

  lemma NoWriteToRoot(v: Tree, offset: nat, bytes: seq<Byte>, through: Option<Errno>)
    ensures Plain.WriteHandle(v, [], offset, bytes, through) == Plain.Failed(EISDIR)
  {
  }

  lemma NothingMoved(v: Tree, plain: Plain.Outcome, umask: Mode)
    ensures forall status: Option<Errno> :: status.Some? ==> Answers(v, plain, status, v, umask)
  {
    NothingAnew(v, umask);
  }

  method EditsEntry(engine: WorkspaceEngine, call: Call, fault: Fault) returns (status: Option<Errno>)
    requires engine.Consistent() && engine.InSync() && (call.Chmod? || call.Utimens?)
    modifies engine`disk, engine`trace, engine`tombstones, engine`cache
    ensures Performed(engine, call, fault, status)
  {
    hide CrashBehaviour, Recoverable, Answers, Remade, MadeAnew, Overlay.View, Overlay.Sound, Overlay.Lookup,
      Plain.EditAt, CopiedParents, StagedAnew, RefusedWith, Listings.Coherent, ReachesCommit, BarredBehaviour,
      NothingListedBelow, ExposedEdit, Honest, Barred, Agrees;
    ghost var o, umask, from, k := engine.Now(), engine.umask, |engine.trace|, 0;
    ghost var plain, ds := Meant(engine.View(), call, umask), CopiedParents(o, call.path, fault);
    ghost var edit := if call.Chmod? then Plain.SetMode(call.mode) else Plain.SetTimes;
    ghost var staged := StagedAnew(o.View(), call.path, edit);
    if call.Chmod? {
      status, k := engine.Chmod(call.path, call.mode, call.through, fault);
    } else {
      status, k := engine.Utimens(call.path, call.through, fault);
    }
    if call.path !in o.View() {
      NoEntryAnswer(o, call, edit, plain, fault, umask);
    } else {
      BarredAnswer(o, call, plain, ds, staged, fault, status, engine.View(), umask);
      MeantAnyUmask(o.View(), call, umask);
      NoRootRecord(o, edit, call.through, fault);
      if call.path != [] && !ExposedEdit(o, call.path, edit, call.through, fault) {
        EditRecoverable(engine.base, engine.trace, from, k, o, ds, staged, umask, call.path, edit, call.through, fault,
                        status, engine.View());
      }
    }
  }

  lemma BarredAnswer(o: Overlay, call: Call, plain: Plain.Outcome, ds: set<Path>, staged: set<Path>, fault: Fault,
                     status: Option<Errno>, v': Tree, umask: Mode)
    requires call.Chmod? || call.Utimens?
    requires Agrees(Anew(Barred(o, call.path, plain), ds + staged, umask), Remade(o.View(), ds, umask), fault, status,
                    v')
    ensures Answers(o.View(), plain, status, v', umask) && Honest(plain, call, fault, status)
    ensures ReplacesInPlace(o, call.path) ==> Barred(o, call.path, plain) == plain
    ensures status.None? ==> plain.Done? && ReplacesInPlace(o, call.path) && !Fatal(fault)
  {
    AnswerOf(o.View(), Barred(o, call.path, plain), ds, ds + staged, fault, status, v', umask);
  }

  lemma NoEntryAnswer(o: Overlay, call: Call, edit: Plain.Edit, plain: Plain.Outcome, fault: Fault, umask: Mode)
    requires (call.Chmod? || call.Utimens?) && call.path !in o.View()
    requires plain == Plain.EditAt(o.View(), call.path, edit, call.through)
    ensures Answers(o.View(), plain, Some(ENOENT), o.View(), umask) && Honest(plain, call, fault, Some(ENOENT))
  {
    NothingMoved(o.View(), plain, umask);
  }

  method Removal(engine: WorkspaceEngine, call: Call, fault: Fault) returns (status: Option<Errno>)
    requires engine.Consistent() && engine.InSync() && (call.Unlink? || call.Rmdir?)
    modifies engine`disk, engine`trace, engine`tombstones, engine`cache
    ensures Performed(engine, call, fault, status)
  {
    hide CrashAtomic, EitherTree, Recoverable, Remade, MadeAnew, Overlay.View, Overlay.Sound, Plain.Unlink, Plain.Rmdir;
    ghost var o, umask, from, k := engine.Now(), engine.umask, |engine.trace|, 0;
    ghost var plain := Meant(engine.View(), call, umask);
    if call.Unlink? {
      status, k := engine.Unlink(call.path, fault);
    } else {
      status, k := engine.Rmdir(call.path, fault);
    }
    NothingAnew(o.View(), umask);
    NothingAnew(engine.View(), umask);
    RemovalRecoverable(engine.base, engine.trace, from, k, o.View(), plain, umask, status, engine.View());
  }

  method Renaming(engine: WorkspaceEngine, call: Call, fault: Fault) returns (status: Option<Errno>)
    requires engine.Consistent() && engine.InSync() && call.Rename?
    modifies engine`disk, engine`trace, engine`tombstones, engine`cache
    ensures Performed(engine, call, fault, status)
  {
    hide CallAtomic, Recoverable, Remade, MadeAnew, Overlay.View, Overlay.Sound, Plain.Rename, CleanRename,
      SoundRename, NoFoldClash, AddTomb, CopiedIf, RenameGivenUp;
    ghost var o, umask, from, k := engine.Now(), engine.umask, |engine.trace|, 0;
    ghost var plain, ds := Meant(engine.View(), call, umask), RenameCopies(o, call.from, call.to, fault);
    if CleanRename(o, call.from, call.to) { CleanIsSound(o, call.from, call.to); }
    status, k := engine.Rename(call.from, call.to, fault);
    MeantAnyUmask(o.View(), call, umask);
    if status.Some? || !Strays(o, old(engine.cache), call, fault) {
      RenameAnswer(o, engine.View(), call.from, call.to, ds, umask, fault, status);
      if !GivesUp(o.View(), call.from, call.to, fault) {
        CallRecoverable(engine.base, engine.trace, from, k, o.View(), ds, umask, plain, status, engine.View());
      }
    }
  }

  lemma RenameAnswer(o: Overlay, v': Tree, from: Path, to: Path, ds: set<Path>, umask: Mode, fault: Fault,
                     status: Option<Errno>)
    requires RenameOutcome(o, v', from, to, ds, umask, fault, status)
      && (status.None? && from != to ==> CleanRename(o, from, to))
    ensures Answers(o.View(), Plain.Rename(o.View(), from, to), status, v', umask)
  {
    hide Overlay.View, CleanRename;
    var v, plain := o.View(), Plain.Rename(o.View(), from, to);
    NothingAnew(v, umask);
    AnewAgain(v, v, ds, umask);
    if plain.Done? {
      NothingAnew(plain.tree, umask);
      AnewAgain(plain.tree, plain.tree, ds + Within(plain.tree, to), umask);
    }
  }

  method Perform(engine: WorkspaceEngine, call: Call, fault: Fault) returns (status: Option<Errno>)
    requires engine.Consistent() && engine.InSync()
    modifies engine`disk, engine`trace, engine`tombstones, engine`cache
    ensures Performed(engine, call, fault, status)
  {
    hide Performed;
    match call {
      case Create(_, _) => status := AddsEntry(engine, call, fault);
      case Mkdir(_, _) => status := AddsEntry(engine, call, fault);
      case Symlink(_, _) => status := AddsEntry(engine, call, fault);
      case Write(_, _, _, _) => status := EditsLeaf(engine, call, fault);
      case Truncate(_, _, _) => status := EditsLeaf(engine, call, fault);
      case Chmod(_, _, _) => status := EditsEntry(engine, call, fault);
      case Utimens(_, _) => status := EditsEntry(engine, call, fault);
      case Unlink(_) => status := Removal(engine, call, fault);
      case Rmdir(_) => status := Removal(engine, call, fault);
      case Rename(_, _) => status := Renaming(engine, call, fault);
    }
  }

  // ----- a whole run -----

  // A call that took place is one that the reference makes on what was there.  An answered one took place
  // exactly if the answer was success, and without a fault the answer is the reference's.
  ghost predicate Fits(reply: Reply, took: bool, plain: Plain.Outcome, event: Event) {
    && (took ==> plain.Done?)
    && (reply.Answered? ==> (took <==> reply.status.None?) && Honest(plain, event.call, event.fault, reply.status))
  }

  ghost predicate Kept(replies: seq<Reply>, took: seq<bool>, v: Tree, events: seq<Event>, umask: Mode) {
    && |took| == |replies| <= |events|
    && forall i | 0 <= i < |took| ::
         Fits(replies[i], took[i], Meant(Folded(v, events, took[..i], umask), events[i].call, umask), events[i])
  }

  lemma KeptNext(replies: seq<Reply>, took: seq<bool>, reply: Reply, next: bool, v: Tree, events: seq<Event>,
                 umask: Mode)
    requires Kept(replies, took, v, events, umask) && |took| < |events|
    requires Fits(reply, next, Meant(Folded(v, events, took, umask), events[|took|].call, umask), events[|took|])
    ensures Kept(replies + [reply], took + [next], v, events, umask)
  {
    hide Fits, Meant, Folded;
    forall i | 0 <= i <= |took|
      ensures Fits((replies + [reply])[i], (took + [next])[i],
                   Meant(Folded(v, events, (took + [next])[..i], umask), events[i].call, umask), events[i])
    {
      assert (took + [next])[..i] == took[..i];
      if i == |took| { assert took[..i] == took; }
    }
  }

  lemma FoldedNext(v: Tree, events: seq<Event>, took: seq<bool>, next: bool, umask: Mode)
    requires |took| < |events|
    ensures var w, plain := Folded(v, events, took, umask),
      Meant(Folded(v, events, took, umask), events[|took|].call, umask);
            Folded(v, events, took + [next], umask) == if next && plain.Done? then plain.tree else w
  {
    assert (took + [next])[..|took|] == took;
  }

  lemma AnewChain(v: Tree, w: Tree, u: Tree, umask: Mode)
    requires MadeAnew(v, w, umask) && MadeAnew(w, u, umask)
    ensures MadeAnew(v, u, umask)
  {
    forall p | p in u ensures u[p] == v[p] || u[p] == CopiedNode(v[p], umask) {
      assert w[p] == v[p] || w[p] == CopiedNode(v[p], umask);
      if v[p].Dir? { assert MaskedDir(MaskedDir(v[p].mode, umask), umask) == MaskedDir(v[p].mode, umask); }
    }
  }

  // One more call on the tree folded so far: t is what it left.
  lemma NextFolded(v: Tree, events: seq<Event>, took: seq<bool>, next: bool, w: Tree, t: Tree, umask: Mode)
    requires |took| < |events| && MadeAnew(Folded(v, events, took, umask), w, umask)
    requires var plain := Meant(w, events[|took|].call, umask);
             if next then plain.Done? && MadeAnew(plain.tree, t, umask) else MadeAnew(w, t, umask)
    ensures MadeAnew(Folded(v, events, took + [next], umask), t, umask)
    ensures var plain, u := Meant(w, events[|took|].call, umask), Folded(v, events, took, umask);
            if plain.Done? then Meant(u, events[|took|].call, umask).Done?
              else Meant(u, events[|took|].call, umask) == plain
  {
    hide MadeAnew, Folded, Meant;
    var u, call := Folded(v, events, took, umask), events[|took|].call;
    FoldedNext(v, events, took, next, umask);
    MeantAlike(u, w, call, umask);
    if next {
      AnewChain(Meant(u, call, umask).tree, Meant(w, call, umask).tree, t, umask);
    } else {
      AnewChain(u, w, t, umask);
    }
  }

  /**
    A run of calls on one Workspace, with faults and crashes, each crash followed by recovery,
    validation and a new engine.  However it goes, what shows is the reference, folded over exactly
    those calls that took place, but for directories made anew: all calls answered with success, none
    answered with an error, and some of those cut short.  The run ends early only at one of the
    shortfalls, or when the .git pointer is found missing.
   */
  method Serve(first: WorkspaceEngine, events: seq<Event>)
    returns (engine: WorkspaceEngine?, replies: seq<Reply>, ghost took: seq<bool>)
    requires first.Consistent() && first.InSync() && [GIT_DIR] !in first.base
    modifies first`disk, first`trace, first`tombstones, first`cache
    ensures Kept(replies, took, old(first.View()), events, first.umask)
    ensures engine != null ==>
      && engine.Consistent() && engine.InSync()
      && MadeAnew(Folded(old(first.View()), events, took, first.umask), engine.View(), first.umask)
    ensures engine != null && |replies| < |events| ==> Shortfall(engine.Now(), engine.cache, events[|replies|])
    ensures engine == null ==>
      && replies != [] && replies[|replies| - 1] == Cut
      && !(events[|replies| - 1].git && ShowsPointer(Folded(old(first.View()), events, took, first.umask)))
  {
    ghost var v, umask := first.View(), first.umask;
    var current := first;
    replies, took := [], [];
    NothingAnew(v, umask);
    while |replies| < |events|
      invariant Kept(replies, took, v, events, umask)
      invariant current == first || fresh(current)
      invariant current.Consistent() && current.InSync() && current.base == first.base && current.umask == umask
      invariant MadeAnew(Folded(v, events, took, umask), current.View(), umask)
    {
      if Shortfall(current.Now(), current.cache, events[|replies|]) { return current, replies, took; }
      ghost var next;
      var reply;
      engine, reply, next := Turn(current, events[|replies|], v, events, took);
      KeptNext(replies, took, reply, next, v, events, umask);
      replies, took := replies + [reply], took + [next];
      if engine == null { return; }
      current := engine;
    }
    engine := current;
  }

  // One event: the call, answered or cut short, and then the restart.
  method Turn(current: WorkspaceEngine, event: Event, ghost v: Tree, ghost events: seq<Event>, ghost took: seq<bool>)
    returns (engine: WorkspaceEngine?, reply: Reply, ghost next: bool)
    requires current.Consistent() && current.InSync() && [GIT_DIR] !in current.base
    requires |took| < |events| && events[|took|] == event
      && MadeAnew(Folded(v, events, took, current.umask), current.View(), current.umask)
    requires !Shortfall(current.Now(), current.cache, event)
    modifies current`disk, current`trace, current`tombstones, current`cache
    ensures Fits(reply, next, Meant(Folded(v, events, took, current.umask), event.call, current.umask), event)
    ensures reply.Answered? ==> engine != null
    ensures engine == null ==> !(event.git && ShowsPointer(Folded(v, events, took + [next], current.umask)))
    ensures engine != null ==>
      && (engine == current || fresh(engine)) && engine.Consistent() && engine.InSync() && engine.base == current.base
           && engine.umask == current.umask
      && MadeAnew(Folded(v, events, took + [next], current.umask), engine.View(), current.umask)
  {
    hide MadeAnew, Folded, Meant, ShowsPointer, HoldsPointer, RecoversTo;
    ghost var w := current.View();
    var steps := |current.trace|;
    var status := Perform(current, event.call, event.fault);
    if event.crash.Some? && steps + event.crash.value < |current.trace| {
      var crashed := current.trace[steps + event.crash.value];
      ghost var t;
      next, t := CutShort(current.base, crashed, v, events, took, w, current.umask);
      engine := Restart(current.workspace, current.base, current.umask, crashed, event.git, t);
      PointerFolded(Folded(v, events, took + [next], current.umask), t, current.umask);
      reply := Cut;
    } else {
      next := status.None?;
      NextFolded(v, events, took, next, w, current.View(), current.umask);
      engine, reply := current, Answered(status);
    }
  }

  // The tree a crashed state stands for, and whether the call took place.
  lemma CutShort(base: Layer, d: Disk, v: Tree, events: seq<Event>, took: seq<bool>, w: Tree, umask: Mode)
    returns (next: bool, t: Tree)
    requires |took| < |events| && MadeAnew(Folded(v, events, took, umask), w, umask)
    requires Recoverable(base, d, w, Meant(w, events[|took|].call, umask), umask)
    ensures RecoversTo(base, d, t) && MadeAnew(Folded(v, events, took + [next], umask), t, umask)
    ensures next ==> Meant(Folded(v, events, took, umask), events[|took|].call, umask).Done?
  {
    hide MadeAnew, Folded, Meant, RecoversTo;
    var plain := Meant(w, events[|took|].call, umask);
    t :| RecoversTo(base, d, t) && (MadeAnew(w, t, umask) || (plain.Done? && MadeAnew(plain.tree, t, umask)));
    next := !MadeAnew(w, t, umask);
    NextFolded(v, events, took, next, w, t, umask);
  }

  lemma PointerFolded(v: Tree, t: Tree, umask: Mode)
    requires MadeAnew(v, t, umask)
    ensures ShowsPointer(v) <==> ShowsPointer(t)
  {
    if [GIT_DIR] in t { assert t[[GIT_DIR]] == v[[GIT_DIR]] || t[[GIT_DIR]] == CopiedNode(v[[GIT_DIR]], umask); }
  }
}
