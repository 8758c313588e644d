/**
  Renames: what they leave, also when they are cut short or given up.
 */
module Renames {
  import opened Layers
  import opened OverlayLaws
  import opened Journal
  import opened Abandonment
  import opened Listings
  import opened Staging
  import opened CallStates
  import opened CopyUp
  import opened InPlace
  import Plain = PlainTree

  ghost predicate RenamePermitted(v: Tree, from: Path, to: Path) {
    && from != [] && to != [] && from != to && !Under(to, from) && from in v
    && (to in v ==> (v[from].Dir? <==> v[to].Dir?) && (v[to].Dir? ==> !HasChild(v, to)))
  }

  ghost predicate RenameAllowed(o: Overlay, from: Path, to: Path) {
    && RenamePermitted(o.View(), from, to)
    && Parent(to) in o.upper && o.upper[Parent(to)].node.Dir?
  }

  // The directories copied up for a rename, if it gets that far.
  ghost function RenameCopies(o: Overlay, from: Path, to: Path, fault: Fault): set<Path> {
    CopiedIf(Plain.RenameObstacle(o.View(), from, to).None? && from != to, o, to, fault)
  }

  // The outcome on the visible tree: failures as in the reference; a success is the move, with the
  // directories copied up and the moved ones made anew, iff clean.
  ghost predicate RenameOutcome(o: Overlay, v': Tree, from: Path, to: Path, ds: set<Path>, umask: Mode, fault: Fault,
                                status: Option<Errno>) {
    var v, plain := o.View(), Plain.Rename(o.View(), from, to);
    && (status.Some? ==> v' == Remade(v, ds, umask))
    && (status.None? ==> plain.Done? && (from == to ==> v' == v) && (from != to ==> !Fatal(fault)))
    && (status.None? && from != to ==>
        (v' == Remade(plain.tree, ds + Within(plain.tree, to), umask) <==> CleanRename(o, from, to)))
    && (fault.NoFault? ==> (plain.Done? <==> status.None?) && (plain.Failed? ==> status == Some(plain.errno)))
  }

  // The publication of a rename is given up.
  ghost predicate GivesUp(v: Tree, from: Path, to: Path, fault: Fault) {
    fault.PublishCall? && from != to && Plain.Rename(v, from, to).Done?
  }

  function RenameOf(o: Overlay, workspace: Name, from: Path, to: Path): Operation {
    Operation(0, workspace, Kind.Rename, from, to, Prepared, Unhidden(o.tombs, from) && from in o.base, true)
  }

  // The staged copy is lost entry by entry.  Before the last durable state recovery refuses the Project, or
  // takes what was at `to` for the published entry and removes the source.
  ghost predicate RenameGivenUp(states: seq<Disk>, k: nat, f: Files, op: Operation, copy: Tree) {
    && (exists stage :: Strip(stage) == copy && GivenUp(states, k, f, op, stage))
    && 2 <= |states|
    && (op.target !in f.upper ==> RefusedWith(states[|states| - 2], StageAndEntryMissing))
    && (op.target in f.upper ==> Recovers(states[|states| - 2], Prune(f.upper, op.path), StoredTombs(f.tombs, op)))
  }

  lemma RenameAbandoned(base: Layer, states: seq<Disk>, from: nat, k: nat, o: Overlay, f: Files, op: Operation,
                        stage: Layer)
    requires GivenUp(states, k, f, op, stage) && op.kind.Rename? && op.path != []
    requires o.Sound() && o.base == base && f.upper == o.upper && from <= k && forall i | from <= i < k ::
      Preparing(states[i], f)
    ensures RenameGivenUp(states, k, f, op, Strip(stage))
    ensures f.tombs == o.tombs ==> forall i | from <= i < k ::
      RecoversTo(base, states[i], o.View()) && !Committed(states[i])
  {
    hide GivenUp, Preparing;
    GivenUpEnds(states, k, f, op, stage);
    StageGoneOutcome(states[|states| - 2], f, op);
    if f.tombs == o.tombs {
      assert ShowsSoundly(base, f.upper, f.tombs, o.View());
      forall i | from <= i < k ensures RecoversTo(base, states[i], o.View()) && !Committed(states[i]) {
        PreparingRollsBack(states[i], f);
      }
    }
  }

  lemma GivenUpEnds(states: seq<Disk>, k: nat, f: Files, op: Operation, stage: Layer)
    requires GivenUp(states, k, f, op, stage)
    ensures k + 3 <= |states| && StageGone(states[|states| - 2], f, op)
  {
  }

  // The upper tree and the rows are all that matters of the files.
  lemma SameGivenUp(states: seq<Disk>, k: nat, f: Files, g: Files, op: Operation, copy: Tree)
    requires RenameGivenUp(states, k, f, op, copy) && g.upper == f.upper && g.tombs == f.tombs
    ensures RenameGivenUp(states, k, g, op, copy)
  {
    var stage :| Strip(stage) == copy && GivenUp(states, k, f, op, stage);
    assert GivenUp(states, k, g, op, stage);
  }

  lemma RenameEndsEarly(o: Overlay, from: Path, to: Path, ds: set<Path>, umask: Mode, fault: Fault,
                        status: Option<Errno>)
    requires status == Plain.RenameObstacle(o.View(), from, to) && (status.Some? || from == to)
      && ds == RenameCopies(o, from, to, fault)
    ensures RenameOutcome(o, o.View(), from, to, ds, umask, fault, status)
  {
    RemadeNothing(o.View(), umask);
  }

  // How a rename stands once copy-up has ended.
  lemma RenameReaches(o: Overlay, p: Overlay, from: Path, to: Path, ds: set<Path>, umask: Mode, fault: Fault,
                      status: Option<Errno>)
    requires CopiedBy(o, p, ds, umask) && RenamePermitted(o.View(), from, to)
      && Plain.RenameObstacle(o.View(), from, to) == None
    requires status == if Stops(o, to, fault) then Some(EIO) else Plain.ParentStatus(o.View(), to)
    ensures status.Some? ==> RenameOutcome(o, p.View(), from, to, ds, umask, fault, status)
    ensures status.Some? ==> !GivesUp(o.View(), from, to, fault)
    ensures status.None? ==> Plain.Rename(o.View(), from, to) == Plain.Done(Plain.Moved(o.View(), from, to))
    ensures RenamePermitted(p.View(), from, to)
    ensures CleanRename(p, from, to) <==> CleanRename(o, from, to)
    ensures SoundRename(p, from, to) <==> SoundRename(o, from, to)
    ensures AddTomb(p, from) == AddTomb(o, from)
    ensures p.View() == Remade(o.View(), ds, umask)
  {
    RemadeKinds(o.View(), ds, umask);
    StillAllowed(o, p, from, to);
  }

  lemma RenameDone(o: Overlay, p: Overlay, v': Tree, from: Path, to: Path, ds: set<Path>, umask: Mode, fault: Fault,
                   status: Option<Errno>)
    requires o.Sound() && RenamePermitted(o.View(), from, to) && OnTheWay(ds, to)
      && p.View() == Remade(o.View(), ds, umask)
    requires Plain.Rename(o.View(), from, to) == Plain.Done(Plain.Moved(o.View(), from, to))
    requires (status.Some? ==> v' == p.View() && !fault.NoFault?) && (Fatal(fault) ==> status.Some?)
    requires status.None? ==>
      (v' == MovedAs(p.View(), from, to, Copied(Subtree(p.View(), from), umask)) <==> CleanRename(o, from, to))
    ensures RenameOutcome(o, v', from, to, ds, umask, fault, status)
  {
    hide MovedAs, Plain.Moved, Remade, Copied, CleanRename;
    ViewIsTree(o);
    assert AtOrUnder(from, to) ==> HasChild(o.View(), to);
    MovedRemade(o.View(), from, to, ds, umask);
  }

  lemma SourceApart(o: Overlay, from: Path, to: Path)
    requires o.Sound() && RenameAllowed(o, from, to)
    ensures !AtOrUnder(to, from) && !AtOrUnder(from, to)
  {
    ViewIsTree(o);
    if AtOrUnder(from, to) {
      assert Under(from, to);
      assert HasChild(o.View(), to);
    }
  }

  lemma RenamePublication(o: Overlay, from: Path, to: Path, op: Operation, umask: Mode)
    requires o.Sound() && RenameAllowed(o, from, to) && op.kind.Rename? && op.target == to
    ensures !AtOrUnder(to, from) && !AtOrUnder(from, to)
    ensures PublicationStatus(o, op, CopyOf(from), umask) == None && PlanStatus(CopyOf(from), o.View(), umask) == None
  {
    SourceApart(o, from, to);
    CopiedAt(o.View(), from, umask, []);
    assert from + [] == from;
    ViewAt(o, to);
    forall q | q in o.upper ensures q in o.View() { ViewAt(o, q); }
  }

  lemma StageOfRename(o: Overlay, from: Path, to: Path, umask: Mode, stage: Layer)
    requires o.Sound() && RenameAllowed(o, from, to) && WellFormedStage(stage)
    requires Strip(stage) == Planned(CopyOf(from), o.View(), umask)
    ensures RenameReady(o, from, to, stage)
    ensures Strip(stage) == Copied(Subtree(o.View(), from), umask)
  {
    SourceApart(o, from, to);
    var c, v := Copied(Subtree(o.View(), from), umask), Subtree(o.View(), from);
    assert SameKinds(c, v) by {
      assert c.Keys == v.Keys;
    }
  }

  lemma RenameForgets(o: Overlay, from: Path, to: Path, op: Operation, listings: Cache)
    requires Coherent(o, listings)
    ensures Coherent(o, ForgottenBy(listings, op))
  {
  }

  lemma RenameCoherent(o: Overlay, from: Path, to: Path, stage: Layer, listings: Cache)
    requires RenameReady(o, from, to, stage) && Coherent(o, listings)
    ensures Coherent(Renamed(o, from, to, stage), Forgotten(Forgotten(listings, from), to))
  {
    var o' := Renamed(o, from, to, stage);
    forall q ensures AtOrUnder(q, from) || AtOrUnder(q, to) || o'.Lookup(q) == o.Lookup(q) {
      RenameLookup(o, from, to, stage, q);
    }
    CacheSurvives(o, o', Forgotten(Forgotten(listings, from), to), from, to);
  }

  lemma StillAllowed(o: Overlay, o': Overlay, from: Path, to: Path)
    requires o.base == o'.base && o.tombs == o'.tombs && SameKinds(o.View(), o'.View())
    requires RenamePermitted(o.View(), from, to)
    ensures SoundRename(o', from, to) <==> SoundRename(o, from, to)
    ensures RenamePermitted(o'.View(), from, to)
    ensures CleanRename(o', from, to) <==> CleanRename(o, from, to)
    ensures AddTomb(o', from) == AddTomb(o, from)
  {
  }
}
