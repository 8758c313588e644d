/**
  Removals: what they leave, also when they are cut short.
 */
module Removals {
  import opened Layers
  import opened OverlayLaws
  import opened Journal
  import opened Listings
  import opened CallStates

  function RemovalOf(o: Overlay, workspace: Name, kind: Kind, p: Path): Operation {
    Operation(0, workspace, kind, p, [], Publishing, Unhidden(o.tombs, p) && p in o.base, false)
  }

  lemma NoUpperChildren(o: Overlay, path: Path)
    requires o.Sound() && path in o.View() && (o.View()[path].Dir? ==> !HasChild(o.View(), path))
    ensures !HasChild(o.upper, path) && !HasChild(o.View(), path)
  {
    ViewIsTree(o);
    forall q | q in o.upper ensures q in o.View() { ViewAt(o, q); }
  }

  lemma RemovalShape(o: Overlay, workspace: Name, kind: Kind, p: Path)
    ensures var op := RemovalOf(o, workspace, kind, p);
            && op.kind == kind && op.path == p && op.workspace == workspace && op.phase.Publishing? && !op.dropTarget
            && op.addTomb == (Unhidden(o.tombs, p) && p in o.base)
  {
  }

  // The rows that a removal leaves.
  lemma RemovalRows(o: Overlay, rows: set<Path>, op: Operation)
    requires op.addTomb == (Unhidden(o.tombs, op.path) && op.path in o.base) && !op.dropTarget && op.path != []
    ensures MemoryTombs(o.tombs, op) == AddTomb(o, op.path)
    ensures StoredTombs(rows, op) == rows + (if AddTomb(o, op.path) == o.tombs then {} else {op.path})
  {
    assert AtOrUnder(op.path, op.path);
  }

  lemma RemovalPending(d: Disk, f: Files, op: Operation, request: Operation)
    requires d.files == f && d.journal == [op] && (op.kind.Unlink? || op.kind.Rmdir?)
      && op == request.(id := op.id, phase := Publishing)
    requires op.kind.Unlink? ==> !HasChild(f.upper, op.path)
    ensures GoingForward(d, f, request, map[])
  {
  }

  // What removing an entry without children does to the view and to the listings.
  lemma RemovalEffects(o: Overlay, p: Path, listings: Cache)
    requires o.Sound() && p != [] && Coherent(o, listings) && !HasChild(o.View(), p)
    ensures var o' := o.(upper := Prune(o.upper, p), tombs := AddTomb(o, p));
            o'.Sound() && o'.View() == o.View() - {p} && Coherent(o', Forgotten(listings, p))
              && Coherent(o, Forgotten(listings, p))
  {
    RemoveView(o, p);
    PruneLeaf(o.View(), p);
    RemovalCoherent(o, p, listings);
  }

  // What crashes can do to a removal.
  lemma RemovalCrash(base: Layer, states: seq<Disk>, from: nat, k: nat, o: Overlay, f: Files, op: Operation,
                     fault: Fault, status: Option<Errno>, v': Tree)
    requires from <= k <= |states| && o.Sound() && o.base == base && f.upper == o.upper && f.tombs == o.tombs
    requires op.path != [] && (op.kind.Unlink? || op.kind.Rmdir?) && Unpublished(states, from, k, f, op.path)
    requires k < |states| ==> states[k].journal != [] && GoingForward(states[k], f, op, map[])
    requires status.Some? && !fault.PublishCall? ==> k == |states|
    requires status.Some? && fault.PublishCall? ==>
      |states| == k + 2 && states[k + 1].journal == [] && states[k + 1].files == f
    requires status.None? ==> k < |states| && forall i | k <= i < |states| :: GoingForward(states[i], f, op, map[])
    requires ShowsSoundly(base, CompleteUpper(f.upper, op, map[]), StoredTombs(f.tombs, op), o.View() - {op.path})
    requires v' == if status.Some? then o.View() else o.View() - {op.path}
    ensures if fault.PublishCall? && status.Some? then EitherTree(base, states, from, k, o.View(), o.View() - {op.path})
            else CrashAtomic(base, states, from, k, o.View(), v')
  {
    hide GoingForward, Overlay.View, EitherTree, CrashAtomic, CompleteUpper, StoredTombs;
    UnpublishedPrepares(states, from, k, f, op.path);
    if fault.PublishCall? && status.Some? {
      RemovalGivenUp(base, states, from, k, o, f, op);
    } else {
      ProtocolIsAtomic(base, states, from, k, f, op, map[], o.View(), v');
    }
  }

  lemma RemovalGivenUp(base: Layer, states: seq<Disk>, from: nat, k: nat, o: Overlay, f: Files, op: Operation)
    requires from <= k && |states| == k + 2 && o.Sound() && o.base == base && f.upper == o.upper && f.tombs == o.tombs
      && op.path != []
    requires forall i | from <= i < k :: Preparing(states[i], f)
    requires states[k + 1].journal == [] && states[k + 1].files == f
    requires GoingForward(states[k], f, op, map[]) && (op.kind.Unlink? || op.kind.Rmdir?)
    requires ShowsSoundly(base, CompleteUpper(f.upper, op, map[]), StoredTombs(f.tombs, op), o.View() - {op.path})
    ensures EitherTree(base, states, from, k, o.View(), o.View() - {op.path})
  {
    hide GoingForward, Preparing, CompleteUpper, StoredTombs, Overlay.View;
    assert ShowsSoundly(base, f.upper, f.tombs, o.View());
    forall i | from <= i < k ensures RecoversTo(base, states[i], o.View()) && !Committed(states[i]) {
      PreparingRollsBack(states[i], f);
    }
    ForwardCompletes(states[k], f, op, map[]);
    RecoverIdle(states[k + 1]);
  }

  lemma RemovalCoherent(o: Overlay, p: Path, listings: Cache)
    requires o.Sound() && p != [] && Coherent(o, listings)
    ensures Coherent(o, Forgotten(listings, p))
    ensures Coherent(o.(upper := Prune(o.upper, p), tombs := AddTomb(o, p)), Forgotten(listings, p))
  {
    var o' := o.(upper := Prune(o.upper, p), tombs := AddTomb(o, p));
    forall q ensures AtOrUnder(q, p) || o'.Lookup(q) == o.Lookup(q) {
      UnhiddenAfterAdd(o, p, q);
    }
    CacheSurvives(o, o', Forgotten(listings, p), p, p);
  }
}
