/**
  The Workspace engine: every durable write is one step of `trace`, so that a
  crash between any two of them is a state of the trace.
 */
module Engine {
  import opened Layers
  import opened OverlayLaws
  import opened Journal
  import opened Abandonment
  import opened Listings
  import opened Staging
  import opened CallStates
  import opened Merging
  import opened CopyUp
  import opened StageStates
  import opened EditLaws
  import opened InPlace
  import opened Removals
  import opened Renames
  import Plain = PlainTree

  datatype Found = Missing | InUpper(inode: Inode) | InBase(inode: Inode)

  datatype Listed = Entries(listing: Listing) | Refused(errno: Errno)

  class WorkspaceEngine {
    const workspace: Name
    const base: Layer
    const umask: Mode
    var disk: Disk
    var tombstones: set<Path>
    var cache: Cache
    var trace: seq<Disk>        // every durable state since the engine was opened

    function Now(): Overlay
      reads this
    {
      Overlay(base, disk.files.upper, tombstones)
    }

    function View(): Tree
      reads this
    {
      Now().View()
    }

    // The trace ends in the present state, and each of its states comes from the one before by one step.
    ghost predicate Traced()
      reads this`disk, this`trace
    {
      && trace != [] && trace[|trace| - 1] == disk
      && (forall i | 1 <= i < |trace| :: CallStep(workspace, trace[i - 1], trace[i]))
    }

    ghost predicate Consistent()
      reads this
    {
      && Traced() && Now().Sound() && disk.journal == [] && Coherent(Now(), cache)
      && (forall id | id in disk.files.stages :: id < disk.nextId)
    }

    // The in-memory tombstones are the stored ones.
    ghost predicate InSync()
      reads this
    {
      tombstones == disk.files.tombs
    }

    constructor (workspace: Name, base: Layer, umask: Mode, stored: Disk)
      requires Overlay(base, stored.files.upper, stored.files.tombs).Sound() && stored.journal == []
      requires forall id | id in stored.files.stages :: id < stored.nextId
      ensures Consistent() && InSync() && disk == stored && trace == [stored] && cache == map[]
      ensures this.base == base && this.umask == umask && this.workspace == workspace
    {
      this.workspace, this.base, this.umask := workspace, base, umask;
      disk, tombstones, cache, trace := stored, stored.files.tombs, map[], [stored];
    }

    // One durable step.
    method Commit(d: Disk)
      requires Traced() && CallStep(workspace, disk, d)
      modifies this`disk, this`trace
      ensures Traced() && disk == d && trace == old(trace) + [d]
    {
      disk, trace := d, trace + [d];
    }

    // ----- reading -----

    method BaseIsVisible(relative: Path) returns (visible: bool)
      ensures visible <==> Unhidden(tombstones, relative)
    {
      var path := relative;
      while path != []
        invariant AtOrUnder(relative, path)
        invariant forall t | t in tombstones && t != [] && AtOrUnder(relative, t) :: AtOrUnder(path, t)
      {
        if path in tombstones { return false; }
        forall t | t in tombstones && AtOrUnder(path, t) ensures AtOrUnder(Parent(path), t) { AboveParent(path, t); }
        path := Parent(path);
      }
      visible := true;
    }

    method FindVisibleEntryLayer(relative: Path) returns (found: Found)
      ensures found == if relative in disk.files.upper then InUpper(disk.files.upper[relative])
                       else if relative in View() then InBase(base[relative]) else Missing
      ensures found.Missing? <==> relative !in View()
      ensures !found.Missing? ==> View()[relative] == found.inode.node
    {
      ViewAt(Now(), relative);
      if relative in disk.files.upper { return InUpper(disk.files.upper[relative]); }
      var visible := BaseIsVisible(relative);
      if visible && relative in base { return InBase(base[relative]); }
      found := Missing;
    }

    // One layer's entries of a directory, written over those already merged.
    method MergeDirectory(layer: Layer, relative: Path, filterTombstones: bool, entries: Listing)
      returns (merged: Listing)
      requires WellFormed(layer)
      ensures MergedFrom(layer, relative, if filterTombstones then tombstones else {}, entries, merged)
    {
      merged := entries;
      if relative !in layer || !layer[relative].node.Dir? {
        NoEntries(layer, relative);
        return;
      }
      hide MergedBut;
      var names := Names(layer, relative);
      ghost var filter := if filterTombstones then tombstones else {};
      NoneMerged(layer, relative, filter, entries);
      while names != {}
        invariant MergedBut(layer, relative, filter, entries, names, merged)
      {
        var n :| n in names;
        OneMerged(layer, relative, filter, entries, names, merged, n);
        if !(filterTombstones && Child(relative, n) in tombstones) {
          merged := merged[n := EntryOf(layer[Child(relative, n)])];
        }
        names := names - {n};
      }
      AllMerged(layer, relative, filter, entries, merged);
    }

    method MergeVisibleDirectoryEntries(relative: Path) returns (entries: Listing)
      requires Now().Sound()
      ensures entries == ListingOf(Now(), relative) && ListsChildren(Now(), relative, entries)
    {
      ListingIsOfChildren(Now(), relative);
      entries := map[];
      var visible := BaseIsVisible(relative);
      if visible { entries := MergeDirectory(base, relative, true, entries); }
      ghost var lower := entries;
      entries := MergeDirectory(disk.files.upper, relative, false, entries);
      MergedIsListing(Now(), relative, lower, entries);
    }

    /** The cached answer is the fresh one. */
    method Readdir(path: Path) returns (r: Listed)
      requires Consistent()
      modifies this`cache
      ensures Consistent()
      ensures r == if path !in View() then Refused(ENOENT) else if !View()[path].Dir? then Refused(ENOTDIR)
                   else Entries(ListingOf(Now(), path))
      ensures r.Entries? ==> ListsChildren(Now(), path, r.listing)
    {
      ListingIsOfChildren(Now(), path);
      if path in cache { return Entries(cache[path]); }
      var found := FindVisibleEntryLayer(path);
      if found.Missing? { return Refused(ENOENT); }
      if !found.inode.node.Dir? { return Refused(ENOTDIR); }
      var merged := MergeVisibleDirectoryEntries(path);
      cache := cache[path := merged];
      r := Entries(merged);
    }

    // ----- copying parent directories up -----

    // One directory on the way: it must be a directory, and is created if only Base has it.
    method CopyUpDirectory(dir: Path, fault: Fault, ghost o: Overlay, ghost c: set<Path>)
      returns (status: Option<Errno>, ghost c': set<Path>)
      requires Consistent() && dir != [] && Parent(dir) in disk.files.upper && disk.files.upper[Parent(dir)].node.Dir?
      requires CopiedBy(o, Now(), c, umask) && dir !in c
      modifies this`disk, this`trace, this`cache
      ensures Consistent() && CopiedBy(o, Now(), c', umask)
      ensures disk == old(disk).(files := old(disk.files).(upper := disk.files.upper))
      ensures trace == old(trace) || trace == old(trace) + [disk]
      ensures status.None? ==> dir in disk.files.upper && disk.files.upper[dir].node.Dir?
      ensures c' == if dir !in o.upper && Blocked(o.View(), dir) == None && fault != ParentMkdir(|dir|, false)
        then c + {dir} else c
      ensures status == if dir !in o.upper && Blocked(o.View(), dir) == None && fault.ParentMkdir?
        && fault.level == |dir| then Some(EIO)
                        else Blocked(o.View(), dir)
    {
      hide Coherent, Overlay.Sound, Overlay.View, Overlay.Lookup, Unhidden, CopiedBy, Blocked;
      BlockedNow(o, Now(), c, umask, dir);
      c' := c;
      if dir in disk.files.upper {
        return if disk.files.upper[dir].node.Dir? then None else Some(ENOTDIR), c;
      }
      var visible := BaseIsVisible(dir);
      if !visible || dir !in base { return Some(ENOENT), c; }
      if !base[dir].node.Dir? { return Some(ENOTDIR), c; }
      ghost var was, listings := Now(), cache;
      StillCoherent(was, listings, dir);
      cache := Forgotten(cache, dir);
      if fault == ParentMkdir(|dir|, false) { return Some(EIO), c; }
      var number: nat := *;
      CopyUpOne(o, was, c, umask, dir, number, listings);
      Commit(disk.(files := disk.files.(upper := disk.files.upper[dir := Inode(number,
        Dir(MaskedDir(base[dir].node.mode, umask)))])));
      assert Now() == CopiedUp(was, umask, dir, number);
      c' := c + {dir};
      status := if fault == ParentMkdir(|dir|, true) then Some(EIO) else None;
    }

    method CreateMissingUpperParentDirectories(relative: Path, fault: Fault) returns (status: Option<Errno>)
      requires Consistent()
      modifies this`disk, this`trace, this`cache
      ensures Consistent() && Extends(old(trace), trace)
      ensures disk == old(disk).(files := old(disk.files).(upper := disk.files.upper))
      ensures status == if Stops(old(Now()), relative, fault) then Some(EIO)
        else Plain.ParentStatus(old(View()), relative)
      ensures relative == [] ==> status.None? && disk == old(disk) && trace == old(trace) && cache == old(cache)
      ensures status.None? && relative != [] ==>
        Parent(relative) in disk.files.upper && disk.files.upper[Parent(relative)].node.Dir?
      ensures CopiedBy(old(Now()), Now(), CopiedParents(old(Now()), relative, fault), umask)
      ensures SameBelow(old(disk.files.upper), disk.files.upper, relative)
      ensures old(InSync()) ==> forall i | |old(trace)| <= i < |trace| ::
        RecoversNear(base, trace[i], old(View()), CopiedParents(old(Now()), relative, fault), umask)
          && !Committed(trace[i])
    {
      hide Traced, RecoversNear, Committed, Coherent, Overlay.View, Overlay.Sound, CopiedBy, CopyUpState, BaseParents,
        Graft, Blocked;
      ghost var o, was, c := Now(), disk, {};
      NothingCopied(o, relative, umask);
      var k := 1;
      while k < |relative|
        invariant 1 <= k && (relative != [] ==> k <= |relative|)
        invariant relative == [] ==> disk == was && trace == old(trace) && cache == old(cache)
        invariant Consistent() && Extends(old(trace), trace) && c == ParentsAbove(o, relative, k)
        invariant disk == was.(files := was.files.(upper := disk.files.upper))
        invariant relative != [] ==>
          relative[..k - 1] in disk.files.upper && disk.files.upper[relative[..k - 1]].node.Dir?
        invariant CopiedBy(o, Now(), c, umask)
        invariant Stops(o, relative, fault) ==> k <= fault.level
        invariant relative != [] ==> Plain.ParentStatus(o.View(), relative[..k]) == None
        invariant forall i | |old(trace)| <= i < |trace| :: CopyUpState(trace[i], o, was.files.tombs, c, umask)
      {
        var dir := relative[..k];
        assert Parent(dir) == relative[..k - 1];
        WalkOne(o.View(), relative, k);
        NextParent(o, relative, k);
        ghost var above := c;
        status, c := CopyUpDirectory(dir, fault, o, c);
        StatesGrow(trace, |old(trace)|, o, was.files.tombs, above, c, umask, disk);
        if status.Some? { break; }
        k := k + 1;
      }
      if k < |relative| {
        StoppedAt(o, relative, k, fault, c);
      } else {
        AllParents(o, relative, k, fault);
      }
      CopiedOnTheWay(o, relative, fault);
      CopiedBelow(o, Now(), c, umask, relative);
      ParentsAreAtomic(base, umask, trace, |old(trace)|, |trace|, was.files.tombs, o, c);
      if k < |relative| { return; }
      if relative != [] { assert relative[..|relative|] == relative && relative[..|relative| - 1] == Parent(relative); }
      status := None;
    }

    // ----- remove_all, one entry at a time -----

    method RemoveStage(id: nat)
      requires id in disk.files.stages ==> [] in disk.files.stages[id]
      requires Traced()
      modifies this`disk, this`trace
      ensures Traced()
      ensures disk == old(disk).(files := old(disk.files).(stages := old(disk.files.stages) - {id}))
      ensures Extends(old(trace), trace)
      ensures forall i | |old(trace)| <= i < |trace| :: StageLeft(trace[i], old(disk), id)
      ensures id in old(disk.files.stages) ==>
        |old(trace)| < |trace| && EntryByEntry(trace, |old(trace)| - 1, id) && LastEntry(trace[|trace| - 2], id)
    {
      hide StageLeft, Shrunk, EntryByEntry, OneLess, AllBefore, LastEntry, HasChild;
      NothingLost(disk, id);
      ghost var from := |trace| - 1;
      NothingLostYet(trace, from, id);
      while id in disk.files.stages
        invariant StageLeft(disk, old(disk), id) && SameButStages(disk, old(disk))
          && disk.files.stages - {id} == old(disk.files.stages) - {id}
        invariant id in disk.files.stages ==> [] in disk.files.stages[id]
        invariant Extends(old(trace), trace) && from == |old(trace)| - 1
        invariant Traced() && (|trace| == |old(trace)| ==> disk == old(disk))
        invariant forall i | |old(trace)| <= i < |trace| :: StageLeft(trace[i], old(disk), id)
        invariant id in disk.files.stages ==> AllBefore(trace, from, id)
        invariant id in old(disk.files.stages) && id !in disk.files.stages ==>
          |trace| > |old(trace)| && EntryByEntry(trace, from, id) && LastEntry(trace[|trace| - 2], id)
        decreases if id in disk.files.stages then |disk.files.stages[id]| else 0
      {
        ghost var before, d := trace, disk;
        ghost var leaf := RemoveStageEntry(id);
        StageStep(before, from, id, leaf, old(disk), d);
      }
      assert disk.files.stages == disk.files.stages - {id};
    }

    method RemoveStageEntry(id: nat) returns (ghost leaf: Path)
      requires Traced() && id in disk.files.stages && [] in disk.files.stages[id]
      modifies this`disk, this`trace
      ensures Traced() && trace == old(trace) + [disk]
      ensures leaf in old(disk.files.stages)[id] && !HasChild(old(disk.files.stages)[id], leaf)
      ensures disk == WithoutEntry(old(disk), id, leaf)
    {
      var stage := disk.files.stages[id];
      assert [] in stage && AtOrUnder([], []);
      LeafAtOrUnder(stage, []);
      var entry :| entry in stage && AtOrUnder(entry, []) && !HasChild(stage, entry);
      leaf := entry;
      if entry == [] {
        Commit(disk.(files := disk.files.(stages := disk.files.stages - {id})));
      } else {
        Commit(disk.(files := disk.files.(stages := disk.files.stages[id := stage - {entry}])));
      }
    }

    method RemoveUpper(p: Path)
      requires Traced()
      modifies this`disk, this`trace
      ensures Traced()
      ensures disk == old(disk).(files := old(disk.files).(upper := Prune(old(disk.files.upper), p)))
      ensures Extends(old(trace), trace)
      ensures forall i | |old(trace)| <= i < |trace| :: HalfRemoved(trace[i], old(disk), p)
    {
      while exists q :: q in disk.files.upper && AtOrUnder(q, p)
        invariant Traced() && HalfRemoved(disk, old(disk), p)
        invariant Extends(old(trace), trace)
        invariant forall i | |old(trace)| <= i < |trace| :: HalfRemoved(trace[i], old(disk), p)
        decreases |disk.files.upper|
      {
        LeafAtOrUnder(disk.files.upper, p);
        var leaf :| leaf in disk.files.upper && AtOrUnder(leaf, p) && !HasChild(disk.files.upper, leaf);
        SmallerMap(disk.files.upper, leaf);
        Commit(disk.(files := disk.files.(upper := disk.files.upper - {leaf})));
      }
      assert disk.files.upper == Prune(disk.files.upper, p);
    }

    // ----- copying a visible subtree into the stage -----

    ghost function StageTree(id: nat): Tree
      reads this
    {
      if id in disk.files.stages then Strip(disk.files.stages[id]) else map[]
    }

    method PutStaged(id: nat, at: Path, node: Node)
      requires Traced()
      modifies this`disk, this`trace
      ensures Traced()
      ensures StageTree(id) == old(StageTree(id))[at := node]
      ensures id in disk.files.stages && SameButStages(disk, old(disk))
        && disk.files.stages - {id} == old(disk.files.stages) - {id}
      ensures Extends(old(trace), trace)
      ensures forall i | |old(trace)| <= i < |trace| :: SameButStages(trace[i], old(disk))
    {
      hide Traced, CallStep;
      var number: nat := *;
      var stage := if id in disk.files.stages then disk.files.stages[id] else map[];
      Working(workspace, disk, disk.files.(stages := disk.files.stages[id := stage[at := Inode(number, node)]]));
      Commit(disk.(files := disk.files.(stages := disk.files.stages[id := stage[at := Inode(number, node)]])));
      assert StageTree(id) == old(StageTree(id))[at := node];
    }

    /** The stage receives exactly the visible subtree, unless copying an entry of it fails. */
    method MaterializeVisibleEntryAt(relative: Path, id: nat, at: Path, fault: Fault) returns (status: Option<Errno>)
      requires Now().Sound() && relative in View()
      requires forall q | q in StageTree(id) :: !AtOrUnder(q, at)
      requires if id in disk.files.stages then [] in disk.files.stages[id] else at == []
      requires Traced()
      modifies this`disk, this`trace
      ensures Traced()
      ensures status == CopyStatus(View(), relative, fault)
      ensures status.None? ==> StageTree(id) == Graft(old(StageTree(id)), at, Copied(Subtree(View(), relative), umask))
      ensures Now() == old(Now()) && (status.None? || id in old(disk.files.stages) ==> id in disk.files.stages)
      ensures id in disk.files.stages ==> [] in disk.files.stages[id]
      ensures OnlyStageChanged(disk, old(disk), id)
      ensures Extends(old(trace), trace)
      ensures forall i | |old(trace)| <= i < |trace| :: SameButStages(trace[i], old(disk))
      decreases set p | p in View() && AtOrUnder(p, relative), 1
    {
      hide Traced;
      var found := FindVisibleEntryLayer(relative);
      if fault.StageCopy? && fault.at == relative {
        assert AtOrUnder(relative, relative);
        var begun: bool, partial: Node := *, *;
        if begun {
          PutStaged(id, at, partial);
          assert [] in StageTree(id);
        }
        return Some(fault.errno);
      }
      ghost var was := StageTree(id);
      PutStaged(id, at, CopiedNode(found.inode.node, umask));
      assert [] in StageTree(id);
      FirstCopied(Now(), relative, umask, was, at);
      if found.inode.node.Dir? {
        var children := MergeVisibleDirectoryEntries(relative);
        status := MaterializeChildren(relative, id, at, children.Keys, fault, was);
      } else {
        NothingBelow(Now(), relative, fault);
        status := None;
      }
    }

    method MaterializeChildren(relative: Path, id: nat, at: Path, children: set<Name>, fault: Fault, ghost was: Tree)
      returns (status: Option<Errno>)
      requires Now().Sound() && relative in View() && children == ListingOf(Now(), relative).Keys
      requires id in disk.files.stages && forall q | q in was :: !AtOrUnder(q, at)
      requires StageTree(id) == Graft(was, at, Through(Copied(Subtree(View(), relative), umask), {}))
      requires [] in StageTree(id) && (fault.StageCopy? ==> fault.at != relative)
      requires Traced()
      modifies this`disk, this`trace
      ensures Traced()
      ensures status == CopyStatus(View(), relative, fault)
      ensures status.None? ==> StageTree(id) == Graft(was, at, Copied(Subtree(View(), relative), umask))
      ensures Now() == old(Now()) && id in disk.files.stages && [] in disk.files.stages[id]
      ensures OnlyStageChanged(disk, old(disk), id)
      ensures Extends(old(trace), trace)
      ensures forall i | |old(trace)| <= i < |trace| :: SameButStages(trace[i], old(disk))
      decreases set p | p in View() && AtOrUnder(p, relative), 0
    {
      hide Traced, Coherent, Overlay.Sound, Overlay.View, Overlay.Lookup, Graft, Subtree, Copied, ListingOf, Through,
        Listings.Names, CopyStatus;
      ghost var s := Copied(Subtree(View(), relative), umask);
      ghost var done := {};
      var names := children;
      while names != {}
        invariant Traced() && names + done == children && names !! done && id in disk.files.stages
          && [] in disk.files.stages[id]
        invariant Now() == old(Now())
        invariant StageTree(id) == Graft(was, at, Through(s, done))
        invariant forall n | n in done :: CopyStatus(View(), Child(relative, n), fault) == None
        invariant OnlyStageChanged(disk, old(disk), id)
        invariant Extends(old(trace), trace)
        invariant forall i | |old(trace)| <= i < |trace| :: SameButStages(trace[i], old(disk))
      {
        var n :| n in names;
        ListedIffVisible(Now(), relative, n);
        ChildShrinks(View(), relative, n);
        UntouchedChild(was, at, s, done, n);
        status := MaterializeVisibleEntryAt(Child(relative, n), id, Child(at, n), fault);
        CopyFailsAbove(View(), relative, n, fault);
        if status.Some? { return; }
        CopiedChild(View(), relative, n, umask);
        ThroughNext(was, at, s, done, n, Copied(Subtree(View(), Child(relative, n)), umask));
        done := done + {n};
        names := names - {n};
      }
      assert done == children;
      AllNamesListed(Now(), relative, umask);
      assert Through(s, done) == s;
      NoCopyFails(Now(), relative, fault);
      status := None;
    }

    method PrepareStage(plan: Plan, id: nat, fault: Fault) returns (status: Option<Errno>)
      requires Now().Sound() && id !in disk.files.stages
      requires !plan.NewEntry? ==> plan.relative in View()
      requires Traced()
      modifies this`disk, this`trace
      ensures Traced()
      ensures Now() == old(Now()) && OnlyStageChanged(disk, old(disk), id)
      ensures status == if fault.StageCopy? && plan.NewEntry? then Some(fault.errno)
                        else if !plan.NewEntry? && CopyStatus(View(), plan.relative, fault).Some?
                          then CopyStatus(View(), plan.relative, fault)
                        else PlanStatus(plan, View(), umask)
      ensures status.None? ==> id in disk.files.stages && StageTree(id) == Planned(plan, View(), umask)
      ensures id in disk.files.stages ==> [] in disk.files.stages[id]
      ensures Extends(old(trace), trace)
      ensures forall i | |old(trace)| <= i < |trace| :: SameButStages(trace[i], old(disk))
    {
      hide Traced, CallStep, Coherent, Overlay.Sound, Overlay.View, Graft, Subtree;
      if plan.NewEntry? {
        if fault.StageCopy? { return Some(fault.errno); }
        PutStaged(id, [], plan.node);
        assert [] in StageTree(id);
        return None;
      }
      ghost var c := Copied(Subtree(View(), plan.relative), umask);
      CopiedAt(View(), plan.relative, umask, []);
      assert plan.relative + [] == plan.relative;
      status := MaterializeVisibleEntryAt(plan.relative, id, [], fault);
      if status.Some? { return; }
      GraftWhole(c);
      var stage := disk.files.stages[id];
      if plan.CopyOf? { return None; }
      var (failed, edited) := Plain.EditNode(stage[[]].node, plan.edit, plan.through);
      if failed.Some? { return failed; }
      Working(workspace, disk,
              disk.files.(stages := disk.files.stages[id := stage[[] := Inode(stage[[]].number, edited)]]));
      Commit(disk.(files := disk.files.(stages := disk.files.stages[id := stage[[] := Inode(stage[[]].number,
        edited)]])));
      assert StageTree(id) == c[[] := edited];
      status := None;
    }

    // The stage goes entry by entry, its root last; then the record goes.
    method AbandonOperation(id: nat)
      requires id in disk.files.stages ==> [] in disk.files.stages[id]
      requires Traced() && |disk.journal| == 1
      modifies this`disk, this`trace
      ensures Traced()
      ensures disk == old(disk).(files := old(disk.files).(stages := old(disk.files.stages) - {id}), journal := [])
      ensures Extends(old(trace), trace) && |old(trace)| < |trace| && trace[|trace| - 1] == disk
      ensures forall i | |old(trace)| <= i < |trace| - 1 :: StageLeft(trace[i], old(disk), id)
      ensures id in old(disk.files.stages) ==>
        && |old(trace)| + 2 <= |trace| && trace[|trace| - 2] == disk.(journal := old(disk.journal))
        && EntryByEntry(trace[..|trace| - 1], |old(trace)| - 1, id) && LastEntry(trace[|trace| - 3], id)
    {
      RemoveStage(id);
      ghost var before := trace;
      Commit(disk.(journal := []));
      assert trace[..|trace| - 1] == before;
    }

    // Given up after the phase commit: what AbandonOperation's states are to recovery.
    method GiveUp(op: Operation, ghost f: Files, ghost request: Operation)
      requires disk.journal == [op] && op == request.(id := op.id, phase := Publishing)
      requires disk.files.upper == f.upper && disk.files.tombs == f.tombs
      requires op.id in disk.files.stages && WellFormedStage(disk.files.stages[op.id])
      requires Traced()
      modifies this`disk, this`trace
      ensures Traced()
      ensures disk == old(disk).(files := old(disk.files).(stages := old(disk.files.stages) - {op.id}), journal := [])
      ensures Extends(old(trace), trace)
      ensures GivenUp(trace, |old(trace)| - 1, f, request, old(disk.files.stages)[op.id])
    {
      hide EntryByEntry, GivenUp, LastEntry;
      ghost var from, stage := |trace| - 1, disk.files.stages[op.id];
      AbandonOperation(op.id);
      StatesGivenUp(trace, from, f, request, op, stage);
    }

    // Journal the operation, build and flush its stage.
    method JournalOperation(request: Operation, plan: Plan, fault: Fault) returns (status: Option<Errno>, op: Operation)
      requires Now().Sound() && disk.journal == [] && request.phase.Prepared? && Staged(request.kind)
        && request.workspace == workspace
      requires forall id | id in disk.files.stages :: id < disk.nextId
      requires !plan.NewEntry? ==> plan.relative in View()
      requires SoundRow(request)
      requires Traced()
      modifies this`disk, this`trace
      ensures Traced()
      ensures Now() == old(Now()) && disk.files.tombs == old(disk.files.tombs) && old(disk).nextId <= disk.nextId
      ensures Extends(old(trace), trace)
      ensures Unpublished(trace, |old(trace)|, |trace|, old(disk.files), request.path)
      ensures op == request.(id := op.id, phase := Publishing)
      ensures if status.Some? then disk.files == old(disk.files) && disk.journal == [] else
        && |old(trace)| < |trace| && disk.journal == [op.(phase := Prepared)] && op.id == old(disk).nextId
             && disk.nextId == op.id + 1
        && op.id in disk.files.stages && disk.files.stages - {op.id} == old(disk.files.stages)
        && Strip(disk.files.stages[op.id]) == Planned(plan, View(), umask) && PlanStatus(plan, View(), umask) == None
      ensures fault.NoFault? || fault.PublishCall? ==> status == PlanStatus(plan, View(), umask)
      ensures !fault.JournalWrite? ==> (status.None? <==> ReachesCommit(plan, View(), umask, fault))
      ensures Fatal(fault) && !fault.JournalWrite? && !fault.PublishCall? ==> status.Some?
      ensures if fault.JournalBegin? then trace == old(trace)
        else |old(trace)| < |trace| && trace[|old(trace)|].journal != []
    {
      hide Traced, CallStep, Coherent, Overlay.Sound, Overlay.View, Overlay.Lookup, Planned, PlanStatus,
        WellFormedStage, Strip, SameButStages, Unpublished;
      op := request.(id := disk.nextId, phase := Publishing);
      NothingStaged(trace, disk.files, request.path);
      if fault.JournalBegin? { return Some(EIO), op; }
      var prepared := op.(phase := Prepared);
      Beginning(workspace, disk, prepared);
      Commit(disk.(journal := [prepared], nextId := op.id + 1));
      ghost var begun := disk;
      status := BuildStage(plan, op.id, fault);
      BuildingIsPreparing(trace, |old(trace)|, begun, old(disk.files));
    }

    // ... and commit the publishing phase.
    method StageOperation(request: Operation, plan: Plan, fault: Fault)
      returns (status: Option<Errno>, op: Operation, ghost stage: Layer)
      requires Now().Sound() && disk.journal == [] && request.phase.Prepared? && Staged(request.kind)
        && request.workspace == workspace
      requires forall id | id in disk.files.stages :: id < disk.nextId
      requires !plan.NewEntry? ==> plan.relative in View()
      requires SoundRow(request)
      requires Traced()
      modifies this`disk, this`trace
      ensures Traced()
      ensures Now() == old(Now()) && disk.files.tombs == old(disk.files.tombs) && old(disk).nextId <= disk.nextId
      ensures Extends(old(trace), trace)
      ensures Unpublished(trace, |old(trace)|, if status.None? then |trace| - 1
                          else |trace|, old(disk.files), request.path)
      ensures op == request.(id := op.id, phase := Publishing)
      ensures if status.Some? then disk.files == old(disk.files) && disk.journal == [] else
        && |old(trace)| < |trace| && trace[|trace| - 1] == disk && disk.journal == [op] && op.id == old(disk).nextId
             && disk.nextId == op.id + 1
        && op.id in disk.files.stages && disk.files.stages - {op.id} == old(disk.files.stages)
        && stage == disk.files.stages[op.id] && Strip(stage) == Planned(plan, View(), umask)
             && PlanStatus(plan, View(), umask) == None
      ensures fault.NoFault? || fault.PublishCall? ==> status == PlanStatus(plan, View(), umask)
      ensures !fault.JournalWrite? ==> (status.None? <==> ReachesCommit(plan, View(), umask, fault))
      ensures Fatal(fault) && !fault.JournalWrite? && !fault.PublishCall? ==> status.Some?
      ensures if fault.JournalBegin? then trace == old(trace)
        else |old(trace)| < |trace| && trace[|old(trace)|].journal != []
    {
      hide Traced, CallStep, Coherent, Overlay.Sound, Overlay.View, Overlay.Lookup, Planned, PlanStatus,
        WellFormedStage, Strip, SameButStages, Unpublished;
      stage := map[];
      status, op := JournalOperation(request, plan, fault);
      if status.Some? { return; }
      ghost var built := trace;
      Committing(workspace, disk, op);
      Commit(disk.(journal := [op]));
      stage := disk.files.stages[op.id];
      SameStates(built, trace, |old(trace)|, |built|, old(disk.files), request.path);
    }

    // Build and flush the stage; if that fails, roll back.
    method BuildStage(plan: Plan, id: nat, fault: Fault) returns (status: Option<Errno>)
      requires Now().Sound() && id !in disk.files.stages && (!plan.NewEntry? ==> plan.relative in View())
      requires Traced() && |disk.journal| == 1
      modifies this`disk, this`trace
      ensures Traced()
      ensures Now() == old(Now()) && Extends(old(trace), trace)
      ensures forall i | |old(trace)| <= i < |trace| - 1 :: SameButStages(trace[i], old(disk))
      ensures status.Some? ==> disk == old(disk).(journal := []) && |old(trace)| < |trace| && trace[|trace| - 1] == disk
      ensures status.None? ==>
        disk == old(disk).(files := disk.files) && disk.files.tombs == old(disk.files.tombs)
        && disk.files.stages - {id} == old(disk.files.stages)
      ensures status.None? ==> forall i | |old(trace)| <= i < |trace| :: SameButStages(trace[i], old(disk))
      ensures status.None? ==>
        id in disk.files.stages && [] in disk.files.stages[id]
        && Strip(disk.files.stages[id]) == Planned(plan, View(), umask)
      ensures status.None? ==> PlanStatus(plan, View(), umask) == None
      ensures fault.RecoveryDir? || fault.StageFlush? || fault.PhaseCommit? ==> status.Some?
      ensures !fault.JournalWrite? && !fault.JournalBegin? ==>
        (status.None? <==> ReachesCommit(plan, View(), umask, fault))
      ensures fault.NoFault? || fault.PublishCall? ==> status == PlanStatus(plan, View(), umask)
    {
      hide Traced, Coherent, Overlay.Sound, Overlay.View, Overlay.Lookup, Planned, PlanStatus, WellFormedStage, Strip,
        Shrunk;
      if fault.RecoveryDir? {
        status := Some(EIO);
      } else {
        status := PrepareStage(plan, id, fault);
        if status.None? && !fault.StageFlush? && !fault.PhaseCommit? {
          assert disk.files.stages - {id} == old(disk.files.stages);
          return;
        }
        if status.None? { status := Some(EIO); }
      }
      AbandonOperation(id);
      assert disk.files.stages == old(disk.files.stages);
    }

    // The published entry is in place: remove a rename's source and commit the final transaction.
    method FinishPublished(op: Operation, ghost f: Files, ghost stage: Layer)
      requires disk.journal == [op] && op.phase.Publishing? && Staged(op.kind) && op.id !in disk.files.stages
      requires disk.files.upper == Graft(f.upper, Dest(op), stage) && disk.files.tombs == f.tombs
        && Dest(op) in disk.files.upper
      requires op.kind.Rename? ==> !AtOrUnder(op.target, op.path)
      requires Traced()
      modifies this`disk, this`trace, this`tombstones
      ensures Traced()
      ensures disk == old(disk).(files := Files(CompleteUpper(f.upper, op, stage), old(disk.files.stages),
                                                StoredTombs(f.tombs, op)), journal := [])
      ensures tombstones == MemoryTombs(old(tombstones), op)
      ensures Extends(old(trace), trace)
      ensures forall i | |old(trace)| <= i < |trace| :: GoingForward(trace[i], f, op, stage)
    {
      hide Traced, CallStep;
      if op.kind.Rename? {
        RemoveUpper(op.path);
        forall i | |old(trace)| <= i < |trace| ensures op.target in trace[i].files.upper {
          assert op.target in Prune(trace[i].files.upper, op.path);
        }
      }
      Ending(workspace, disk, StoredTombs(disk.files.tombs, op));
      Commit(disk.(files := disk.files.(tombs := StoredTombs(disk.files.tombs, op)), journal := []));
      tombstones := MemoryTombs(tombstones, op);
    }

    // The publishing rename, and what follows it.
    method PublishStage(op: Operation, ghost f: Files, ghost request: Operation) returns (refused: Option<Errno>)
      requires op == request.(id := op.id, phase := Publishing) && disk.files.upper == f.upper
        && disk.files.tombs == f.tombs
      requires disk.journal == [op] && op.phase.Publishing? && Staged(op.kind)
      requires op.id in disk.files.stages && WellFormedStage(disk.files.stages[op.id])
      requires op.kind.Rename? ==> !AtOrUnder(op.target, op.path)
      requires Traced()
      modifies this`disk, this`trace, this`tombstones
      ensures Traced()
      ensures refused == RenameStatus(f.upper, Dest(request), old(disk.files.stages)[op.id][[]].node.Dir?)
      ensures disk.journal == [] && disk.nextId == old(disk.nextId)
        && disk.files.stages == old(disk.files.stages) - {op.id}
      ensures Extends(old(trace), trace)
      ensures refused.Some? ==>
        disk.files.upper == old(disk.files.upper) && disk.files.tombs == old(disk.files.tombs)
        && tombstones == old(tombstones)
      ensures refused.Some? ==> GivenUp(trace, |old(trace)| - 1, f, request, old(disk.files.stages)[op.id])
      ensures refused.None? ==>
        && disk.files.upper == CompleteUpper(f.upper, request, old(disk.files.stages)[op.id])
        && disk.files.tombs == StoredTombs(f.tombs, request)
        && tombstones == MemoryTombs(old(tombstones), request)
        && forall i | |old(trace)| - 1 <= i < |trace| ::
             GoingForward(trace[i], f, request, old(disk.files.stages)[op.id])
    {
      hide GoingForward, GivenUp, CompleteUpper, StoredTombs, MemoryTombs, RenameStatus, Graft;
      var stage, dest := disk.files.stages[op.id], Dest(op);
      StageWaiting(disk, f, op, request);
      refused := RenameStatus(disk.files.upper, dest, stage[[]].node.Dir?);
      if refused.Some? {
        GiveUp(op, f, request);
        return;
      }
      GraftRoot(disk.files.upper, dest, stage);
      Commit(disk.(files := disk.files.(upper := Graft(disk.files.upper, dest, stage),
                                        stages := disk.files.stages - {op.id})));
      JustPublished(disk, f, op, request, stage);
      FinishPublished(op, f, stage);
      SameButId(trace, |old(trace)| + 1, f, op, request, stage);
      SameFiles(f, old(tombstones), op, request, stage);
    }

    /**
      The publication protocol.  State k of the trace is the one that commits the publishing
      phase: every state before it rolls back, every state from it on goes forward.
     */
    method PublishStagedOperation(request: Operation, plan: Plan, fault: Fault)
      returns (status: Option<Errno>, ghost k: nat, ghost stage: Layer)
      requires Now().Sound() && disk.journal == [] && request.phase.Prepared? && Staged(request.kind)
        && request.workspace == workspace
      requires forall id | id in disk.files.stages :: id < disk.nextId
      requires !plan.NewEntry? ==> plan.relative in View()
      requires SoundRow(request)
      requires Traced()
      modifies this`disk, this`trace, this`tombstones, this`cache
      ensures Traced()
      ensures cache == if fault.JournalWrite? then old(cache) else ForgottenBy(old(cache), request)
      ensures disk.journal == [] && (forall id | id in disk.files.stages :: id < disk.nextId)
      ensures Extends(old(trace), trace) && |old(trace)| <= k <= |trace|
      ensures status.Some? ==> disk.files == old(disk.files) && tombstones == old(tombstones)
      ensures status.None? ==>
        && WellFormedStage(stage) && Strip(stage) == Planned(plan, old(View()), umask)
        && RenameStatus(old(disk.files.upper), Dest(request), stage[[]].node.Dir?) == None
        && disk.files == Files(CompleteUpper(old(disk.files.upper), request, stage), old(disk.files.stages),
                               StoredTombs(old(disk.files.tombs), request))
        && tombstones == MemoryTombs(old(tombstones), request)
      ensures fault.NoFault? ==> status == PublicationStatus(old(Now()), request, plan, umask)
      ensures status.None? ==> PublicationStatus(old(Now()), request, plan, umask) == None
      ensures request.path != [] ==> forall i | |old(trace)| <= i < k :: Preparing(trace[i], old(disk.files))
      ensures status.None? ==> k < |trace| && trace[k].journal != [] && forall i | k <= i < |trace| ::
        GoingForward(trace[i], old(disk.files), request, stage)
      ensures status.Some? && (PlanStatus(plan, old(View()), umask).Some?
                               || (!fault.PublishCall? && PublicationStatus(old(Now()), request, plan, umask) ==
                                   None)) ==>
        k == |trace|
      ensures status.Some? && k < |trace| ==>
        && WellFormedStage(stage) && Strip(stage) == Planned(plan, old(View()), umask)
        && GivenUp(trace, k, old(disk.files), request, stage)
      ensures k < |trace| <==> ReachesCommit(plan, old(View()), umask, fault)
      ensures Fatal(fault) ==> status.Some?
      ensures forall i | |old(trace)| <= i < |trace| :: OwnRow(trace[i], request.path)
      ensures if fault.JournalWrite? || fault.JournalBegin? then trace == old(trace)
        else |old(trace)| < |trace| && trace[|old(trace)|].journal != []
    {
      hide Traced, OwnRow, GivenUp, GoingForward, Preparing, CompleteUpper, StoredTombs, MemoryTombs, RenameStatus,
        Coherent, Overlay.Sound, Overlay.View, Graft, WellFormedStage, Planned, PlanStatus, PublicationStatus, Strip,
        Prune;
      stage := map[];
      if fault.JournalWrite? { return Some(EIO), |trace|, stage; }
      cache := ForgottenBy(cache, request);
      PreparationFails(Now(), request, plan, umask);
      var op;
      status, op, stage := StageOperation(request, plan, fault);
      k := |trace|;
      if status.Some? { return; }
      StageAsPlanned(Now(), request, plan, umask, stage);
      k := |trace| - 1;
      if fault.PublishCall? {
        GiveUp(op, old(disk.files), request);
        LaterRows(trace, k, old(disk.files), request, stage);
        return Some(fault.errno), k, stage;
      }
      status := PublishStage(op, old(disk.files), request);
      LaterRows(trace, k, old(disk.files), request, stage);
    }

    /** Removal: the same protocol without a stage. */
    method RemoveVisibleEntryAtomically(kind: Kind, relative: Path, fault: Fault)
      returns (status: Option<Errno>, ghost k: nat)
      requires Now().Sound() && disk.journal == [] && relative != [] && (kind.Unlink? || kind.Rmdir?)
      requires forall id | id in disk.files.stages :: id < disk.nextId
      requires kind.Unlink? ==> !HasChild(disk.files.upper, relative)
      requires Traced()
      modifies this`disk, this`trace, this`tombstones, this`cache
      ensures Traced()
      ensures cache == Forgotten(old(cache), relative)
      ensures disk.journal == [] && (forall id | id in disk.files.stages :: id < disk.nextId)
      ensures Extends(old(trace), trace) && |old(trace)| <= k <= |trace|
      ensures status.Some? <==> StopsRemoval(fault, relative in old(disk.files.upper))
      ensures Unpublished(trace, |old(trace)|, k, old(disk.files), relative)
      ensures if status.Some? then disk.files == old(disk.files) && tombstones == old(tombstones) else
        && disk.files.upper == Prune(old(disk.files.upper), relative) && disk.files.stages == old(disk.files.stages)
        && tombstones == AddTomb(old(Now()), relative)
        && disk.files.tombs == old(disk.files.tombs) + (if tombstones == old(tombstones) then {} else {relative})
      ensures status.Some? && !fault.PublishCall? ==> k == |trace|
      ensures status.Some? && fault.PublishCall? ==>
        |trace| == k + 2 && trace[k + 1].journal == [] && trace[k + 1].files == old(disk.files)
      ensures k < |trace| ==>
        && trace[k].journal != []
        && GoingForward(trace[k], old(disk.files), RemovalOf(old(Now()), workspace, kind, relative), map[])
      ensures status.None? ==> k < |trace| && forall i | k <= i < |trace| ::
        GoingForward(trace[i], old(disk.files), RemovalOf(old(Now()), workspace, kind, relative), map[])
    {
      hide Traced, Coherent, Overlay.View, Overlay.Lookup, Prune, HasChild, Forgotten, GoingForward, Unpublished,
        AddTomb, StoredTombs, MemoryTombs, RemovalOf;
      ghost var f, request, from := disk.files, RemovalOf(Now(), workspace, kind, relative), |trace|;
      RemovalShape(Now(), workspace, kind, relative);
      cache := Forgotten(cache, relative);
      var op;
      status, op := JournalRemoval(kind, relative, fault);
      k := if status.Some? then |trace| else |trace| - 1;
      if status.Some? { return; }
      ghost var staged := trace;
      RemovalPending(disk, f, op, request);
      RemovalRows(Now(), f.tombs, op);
      status := FinishOrGiveUp(op, fault, request);
      SameStates(staged, trace, from, k, f, relative);
    }

    // The record, and its phase.
    method JournalRemoval(kind: Kind, relative: Path, fault: Fault) returns (status: Option<Errno>, op: Operation)
      requires Traced() && disk.journal == [] && relative != [] && (kind.Unlink? || kind.Rmdir?)
      modifies this`disk, this`trace
      ensures Traced() && Extends(old(trace), trace) && disk.files == old(disk.files) && old(disk).nextId <= disk.nextId
      ensures Unpublished(trace, |old(trace)|, if status.None? then |trace| - 1 else |trace|, old(disk.files), relative)
      ensures status.Some? <==> fault.JournalBegin? || fault.PhaseCommit?
      ensures op == RemovalOf(old(Now()), workspace, kind, relative).(id := op.id)
      ensures if status.Some? then disk.journal == []
        else disk.journal == [op] && |old(trace)| < |trace| && trace[|trace| - 1] == disk
    {
      hide Traced, CallStep, Coherent, Overlay.View, Overlay.Lookup, Preparing, Unpublished;
      var visible := BaseIsVisible(relative);
      op := Operation(disk.nextId, workspace, kind, relative, [], Publishing, visible && relative in base, false);
      NothingStaged(trace, disk.files, relative);
      if fault.JournalBegin? { return Some(EIO), op; }
      var prepared := op.(phase := Prepared);
      Beginning(workspace, disk, prepared);
      Commit(disk.(journal := [prepared], nextId := op.id + 1));
      ghost var begun := disk;
      if fault.PhaseCommit? {
        Ending(workspace, disk, {});
        Commit(disk.(journal := []));
        BuildingIsPreparing(trace, |old(trace)|, begun, old(disk.files));
        return Some(EIO), op;
      }
      BuildingIsPreparing(trace, |old(trace)|, begun, old(disk.files));
      ghost var built := trace;
      Committing(workspace, disk, op);
      Commit(disk.(journal := [op]));
      SameStates(built, trace, |old(trace)|, |built|, old(disk.files), relative);
      status := None;
    }

    // From the phase commit on.
    method FinishOrGiveUp(op: Operation, fault: Fault, ghost request: Operation) returns (status: Option<Errno>)
      requires disk.journal == [op] && op.phase.Publishing? && op.path != [] && (op.kind.Unlink? || op.kind.Rmdir?)
        && op == request.(id := op.id, phase := Publishing)
      requires WellFormed(disk.files.upper) && (op.kind.Unlink? ==> !HasChild(disk.files.upper, op.path))
      requires Traced()
      modifies this`disk, this`trace, this`tombstones
      ensures Traced() && Extends(old(trace), trace) && disk.journal == [] && disk.nextId == old(disk.nextId)
      ensures status.Some? <==> fault.PublishCall? && op.path in old(disk.files.upper)
      ensures if status.Some? then tombstones == old(tombstones) && trace == old(trace) + [old(disk).(journal := [])]
        && disk == old(disk).(journal := []) else
        && disk.files == Files(Prune(old(disk.files.upper), op.path), old(disk.files.stages),
                               StoredTombs(old(disk.files.tombs), op))
        && tombstones == MemoryTombs(old(tombstones), op)
        && forall i | |old(trace)| <= i < |trace| :: GoingForward(trace[i], old(disk.files), request, map[])
    {
      hide Traced, CallStep, GoingForward, Prune, HasChild;
      if fault.PublishCall? && op.path in disk.files.upper {
        Ending(workspace, disk, {});
        Commit(disk.(journal := []));
        return Some(EIO);
      }
      FinishRemoval(op);
      SameButId(trace, |old(trace)|, old(disk.files), op, request, map[]);
      status := None;
    }

    method FinishRemoval(op: Operation)
      requires disk.journal == [op] && op.phase.Publishing? && op.path != [] && (op.kind.Unlink? || op.kind.Rmdir?)
      requires WellFormed(disk.files.upper) && (op.kind.Unlink? ==> !HasChild(disk.files.upper, op.path))
      requires Traced()
      modifies this`disk, this`trace, this`tombstones
      ensures Traced()
      ensures disk == old(disk).(files := Files(Prune(old(disk.files.upper), op.path), old(disk.files.stages),
                                                StoredTombs(old(disk.files.tombs), op)), journal := [])
      ensures tombstones == MemoryTombs(old(tombstones), op)
      ensures Extends(old(trace), trace)
      ensures forall i | |old(trace)| <= i < |trace| :: GoingForward(trace[i], old(disk.files), op, map[])
    {
      hide Traced, CallStep;
      if op.path !in disk.files.upper {
        NothingUnder(disk.files.upper, op.path);
      } else if op.kind.Rmdir? {
        RemoveUpper(op.path);
      } else {
        PruneLeaf(disk.files.upper, op.path);
        Working(workspace, disk, disk.files.(upper := disk.files.upper - {op.path}));
        Commit(disk.(files := disk.files.(upper := disk.files.upper - {op.path})));
      }
      assert disk.files.upper == Prune(old(disk.files.upper), op.path);
      Ending(workspace, disk, StoredTombs(disk.files.tombs, op));
      Commit(disk.(files := disk.files.(tombs := StoredTombs(disk.files.tombs, op)), journal := []));
      tombstones := MemoryTombs(tombstones, op);
    }

    // ----- one staged mutation: copy the parents up, stage, publish -----

    // The second half, once the parents are in place.
    method PublishInPlace(request: Operation, plan: Plan, fault: Fault) returns (status: Option<Errno>, ghost k: nat)
      requires Consistent() && request.workspace == workspace && InPlaceRequest(request)
        && Applies(plan, request.path, View())
      requires request.path != [] ==>
        Parent(request.path) in disk.files.upper && disk.files.upper[Parent(request.path)].node.Dir?
      modifies this`disk, this`trace, this`tombstones, this`cache
      ensures Traced() && Now().Sound()
        && (request.path != [] || status.Some? || NothingListedBelow(old(cache)) ==> Consistent())
      ensures disk.files.tombs == old(disk.files.tombs) && tombstones == old(tombstones)
      ensures Extends(old(trace), trace)
      ensures View() == Mutated(old(View()), request.path, plan, umask, status)
      ensures status.None? ==> request.path in disk.files.upper
      ensures status.None? && plan.NewEntry? ==> request.path in View() && View()[request.path] == plan.node
      ensures fault.NoFault? || status.None? ==> status == PlacementStatus(old(Now()), request.path, plan, umask)
      ensures old(InSync()) ==>
        InPlaceCrash(base, trace, |old(trace)|, k, old(Now()), {}, umask, request.path, plan, fault,
                     PlacementOutcome(old(Now()), request.path, plan, umask), View())
      ensures Fatal(fault) ==> status.Some?
      ensures request.path == [] ==> forall i | |old(trace)| <= i < |trace| ::
        trace[i].journal != [] <==> RefusedWith(trace[i], UnsafePath)
      ensures if fault.JournalWrite? || fault.JournalBegin? then trace == old(trace)
        else |old(trace)| < |trace| && trace[|old(trace)|].journal != []
      ensures k < |trace| <==> ReachesCommit(plan, old(View()), umask, fault)
      ensures request.path != [] && !Replaces(old(Now()), request.path, plan) && k < |trace| ==>
        RefusedWith(trace[k], CannotPublish)
    {
      hide Traced, Graft, Planned, PlanStatus, PublicationStatus, RecoversTo, Committed, CrashAtomic, CallAtomic,
        CrashBehaviour, GivenUp, Abandoning, RefusedWith, GoingForward, Preparing, Coherent, Overlay.Lookup,
        PlanStaged, InPlaceCrash, ReachesCommit;
      ghost var o, listings, f := Now(), cache, disk.files;
      ghost var stage;
      status, k, stage := PublishStagedOperation(request, plan, fault);
      PublicationHere(o, request.path, request, plan, umask);
      if status.None? {
        PublishedView(o, request.path, plan, umask, stage, listings);
        assert Now() == o.(upper := Graft(o.upper, request.path, stage));
      } else {
        StillCoherent(o, listings, request.path);
      }
      if request.path == [] { RootRefused(trace, |old(trace)|); }
      if request.path != [] && !Replaces(o, request.path, plan)
        && k < |trace| { FilledRefused(trace, k, o, f, request, plan, umask, stage); }
      if old(InSync()) {
        CrashInPlace(base, trace, |old(trace)|, k, o, f, request, plan, umask, stage, fault, status, View());
      }
    }

    method StagedMutation(kind: Kind, path: Path, plan: Plan, fault: Fault)
      returns (status: Option<Errno>, ghost k: nat)
      requires Consistent() && Staged(kind) && !kind.Rename? && Applies(plan, path, View())
      modifies this`disk, this`trace, this`tombstones, this`cache
      ensures Traced() && Now().Sound()
        && (path != [] || status.Some? || NothingListedBelow(old(cache)) ==> Consistent())
      ensures old(InSync()) ==> InSync()
      ensures Extends(old(trace), trace)
      ensures status.None? ==> path in disk.files.upper && !Stops(old(Now()), path, fault)
      ensures status.None? && plan.NewEntry? ==> path in View() && View()[path] == plan.node
      ensures Agrees(Anew(MutationOutcome(old(Now()), path, plan, CopiedParents(old(Now()), path, fault), umask),
                          PlanStaged(old(View()), path, plan), umask),
                            Remade(old(View()), CopiedParents(old(Now()), path, fault), umask), fault, status, View())
      ensures old(InSync()) ==>
        InPlaceCrash(base, trace, |old(trace)|, k, old(Now()), CopiedParents(old(Now()), path, fault), umask, path,
                     plan, fault, MutationOutcome(old(Now()), path, plan, CopiedParents(old(Now()), path, fault),
                                                  umask), View())
      ensures path == [] ==> forall i | |old(trace)| <= i < |trace| ::
        trace[i].journal != [] <==> RefusedWith(trace[i], UnsafePath)
      ensures path == [] ==>
        if fault.JournalWrite? || fault.JournalBegin? then trace == old(trace)
          else |old(trace)| < |trace| && trace[|old(trace)|].journal != []
      ensures k < |trace| <==>
        !Stops(old(Now()), path, fault) && Plain.ParentStatus(old(View()), path) == None
          && ReachesCommit(plan, old(View()), umask, fault)
      ensures path != [] && !Replaces(old(Now()), path, plan) && k < |trace| ==> RefusedWith(trace[k], CannotPublish)
    {
      hide Traced, RecoversTo, RecoversNear, Committed, Plain.ParentStatus, Coherent, Overlay.Sound, Overlay.View,
        Remade, Agrees, OnTheWay;
      hide CopiedBy, Replaces, SameBelow, CallAtomic, CrashBehaviour, RefusedWith, BaseParents, Stops, CopiedParents,
        Mutated, MutationOutcome, PlacementOutcome, PlacementStatus, NothingListedBelow, Fatal, InPlaceCrash,
        ReachesCommit;
      ghost var o, ds := Now(), CopiedParents(Now(), path, fault);
      status := CreateMissingUpperParentDirectories(path, fault);
      k := |trace|;
      ghost var mid, p := trace, Now();
      CopiedOnTheWay(o, path, fault);
      StillPlaced(o, p, ds, path, plan, umask);
      StillReaches(o, p, ds, path, plan, umask, fault);
      if status.Some? {
        MutationBlocked(o, p, ds, path, plan, umask, fault, status);
        if old(InSync()) {
          BlockedBehaviour(base, trace, |old(trace)|, o, ds, umask, path, plan, fault,
                           MutationOutcome(o, path, plan, ds, umask), View());
        }
        return;
      }
      status, k := PublishInPlace(Operation(0, workspace, kind, path, [], Prepared, false, false), plan, fault);
      MutationEnds(o, p, View(), ds, path, plan, umask, fault, status);
      if old(InSync()) {
        JoinInPlace(base, mid, trace, |old(trace)|, k, o, p, ds, umask, path, plan, fault,
                    MutationOutcome(o, path, plan, ds, umask), View());
      }
    }

    // ----- the operations -----

    // The call agrees with the reference, but for the directories `copied`: those that copy-up makes
    // anew on the way, whether or not the call succeeds.  The engine stays consistent.
    twostate predicate Refines(plain: Plain.Outcome, copied: set<Path>, fault: Fault, new status: Option<Errno>)
      reads this
    {
      && Consistent() && (old(InSync()) ==> InSync()) && Extends(old(trace), trace)
      && Agrees(Anew(plain, copied, umask), Remade(old(View()), copied, umask), fault, status, View())
    }

    // What a crash at any of the call's durable steps leaves, if it copies the directories `copied` up
    // and stages the directories `staged`.
    twostate predicate Crashes(path: Path, plain: Plain.Outcome, copied: set<Path>, staged: set<Path>, fault: Fault,
                               k: nat)
      reads this
    {
      old(InSync()) ==>
        CrashBehaviour(base, trace, |old(trace)|, k, old(Now()), copied, umask, path, fault,
                       Anew(plain, copied, umask), staged, old(View()), View())
    }

    // create, mkdir and symlink share one shape.
    method AddEntry(kind: Kind, path: Path, node: Node, fault: Fault) returns (status: Option<Errno>, ghost k: nat)
      requires Consistent() && Staged(kind) && !kind.Rename?
      modifies this`disk, this`trace, this`tombstones, this`cache
      ensures Refines(Plain.Create(old(View()), path, node), CreateCopies(old(Now()), path, fault), fault, status)
      ensures status.None? ==>
        path in disk.files.upper && path in View() && View()[path] == node && !Stops(old(Now()), path, fault)
      ensures Crashes(path, Plain.Create(old(View()), path, node), CreateCopies(old(Now()), path, fault), {}, fault, k)
      ensures status.None? ==> TreeExtended(old(View()), View(), path, node, umask)
    {
      hide Traced, RecoversNear, RecoversTo, Coherent, Overlay.Sound, CopiedParents, MutationOutcome, Remade,
        TreeExtended, Overlay.Lookup, Stops;
      ghost var v, copied := View(), CopiedParents(Now(), path, fault);
      k := |trace|;
      RemadeNothing(View(), umask);
      if path == [] { return Some(EEXIST), k; }
      var found := FindVisibleEntryLayer(path);
      if !found.Missing? { return Some(EEXIST), k; }
      CopiedOnTheWay(Now(), path, fault);
      NewEntryAgrees(Now(), path, node, CopiedParents(Now(), path, fault), umask);
      status, k := StagedMutation(kind, path, NewEntry(node), fault);
      CreationAnswer(v, path, node, copied, fault, umask, status, View());
    }

    /** Agrees with create on one plain tree; only directories copied up on the way are made anew. */
    method Create(path: Path, mode: Mode, fault: Fault) returns (status: Option<Errno>, ghost k: nat)
      requires Consistent()
      modifies this`disk, this`trace, this`tombstones, this`cache
      ensures Refines(Plain.Create(old(View()), path, File(Masked(mode, umask), [])),
                      CreateCopies(old(Now()), path, fault), fault, status)
      ensures Crashes(path, Plain.Create(old(View()), path, File(Masked(mode, umask), [])),
                      CreateCopies(old(Now()), path, fault), {}, fault, k)
      ensures status.None? ==> TreeExtended(old(View()), View(), path, File(mode & !umask, []), umask)
    {
      hide Crashes, TreeExtended;
      status, k := AddEntry(Kind.Create, path, File(Masked(mode, umask), []), fault);
    }

    method Mkdir(path: Path, mode: Mode, fault: Fault) returns (status: Option<Errno>, ghost k: nat)
      requires Consistent()
      modifies this`disk, this`trace, this`tombstones, this`cache
      ensures Refines(Plain.Create(old(View()), path, Dir(MaskedDir(mode, umask))),
                      CreateCopies(old(Now()), path, fault), fault, status)
      ensures Crashes(path, Plain.Create(old(View()), path, Dir(MaskedDir(mode, umask))),
                      CreateCopies(old(Now()), path, fault), {}, fault, k)
      ensures status.None? ==> TreeExtended(old(View()), View(), path, Dir((mode & 0x3FF) & !umask), umask)
    {
      hide Crashes, TreeExtended;
      AnyOrder(mode, umask);
      status, k := AddEntry(Kind.Mkdir, path, Dir(MaskedDir(mode, umask)), fault);
    }

    method Symlink(target: string, path: Path, fault: Fault) returns (status: Option<Errno>, ghost k: nat)
      requires Consistent()
      modifies this`disk, this`trace, this`tombstones, this`cache
      ensures Refines(Plain.Create(old(View()), path, Link(target)), CreateCopies(old(Now()), path, fault), fault,
                      status)
      ensures Crashes(path, Plain.Create(old(View()), path, Link(target)), CreateCopies(old(Now()), path, fault), {},
                      fault, k)
      ensures status.None? ==> TreeExtended(old(View()), View(), path, Link(target), umask)
    {
      hide Crashes, TreeExtended;
      status, k := AddEntry(Kind.Symlink, path, Link(target), fault);
    }

    // A removal agrees with the reference outright.  It is crash-atomic outright too; if the upper entry
    // cannot be removed and the record is given up, each state still recovers to the old or the new tree.
    twostate predicate Removes(path: Path, plain: Plain.Outcome, fault: Fault, new status: Option<Errno>, k: nat)
      reads this
    {
      && Consistent() && (old(InSync()) ==> InSync()) && Extends(old(trace), trace)
      && Agrees(plain, old(View()), if StopsRemoval(fault, path in old(disk.files.upper)) then fault
                else NoFault, status, View())
      && (old(InSync()) ==>
            if fault.PublishCall? && status.Some? && plain.Done?
              then EitherTree(base, trace, |old(trace)|, k, old(View()), plain.tree)
            else CrashAtomic(base, trace, |old(trace)|, k, old(View()), View()))
    }

    method Unlink(path: Path, fault: Fault) returns (status: Option<Errno>, ghost k: nat)
      requires Consistent()
      modifies this`disk, this`trace, this`tombstones, this`cache
      ensures Removes(path, Plain.Unlink(old(View()), path), fault, status, k)
    {
      k := |trace|;
      if path == [] { return Some(EISDIR), k; }
      var found := FindVisibleEntryLayer(path);
      if found.Missing? { return Some(ENOENT), k; }
      if found.inode.node.Dir? { return Some(EISDIR), k; }
      NoUpperChildren(Now(), path);
      status, k := RemoveEntry(Kind.Unlink, path, fault);
    }

    method Rmdir(path: Path, fault: Fault) returns (status: Option<Errno>, ghost k: nat)
      requires Consistent()
      modifies this`disk, this`trace, this`tombstones, this`cache
      ensures Removes(path, Plain.Rmdir(old(View()), path), fault, status, k)
    {
      k := |trace|;
      if path == [] { return Some(EBUSY), k; }
      var found := FindVisibleEntryLayer(path);
      if found.Missing? { return Some(ENOENT), k; }
      if !found.inode.node.Dir? { return Some(ENOTDIR), k; }
      var children := MergeVisibleDirectoryEntries(path);
      EmptyListing(Now(), path);
      if children != map[] { return Some(ENOTEMPTY), k; }
      NoUpperChildren(Now(), path);
      status, k := RemoveEntry(Kind.Rmdir, path, fault);
    }

    // remove_visible_entry_atomically, seen on the visible tree.
    method RemoveEntry(kind: Kind, path: Path, fault: Fault) returns (status: Option<Errno>, ghost k: nat)
      requires Consistent() && path != [] && (kind.Unlink? || kind.Rmdir?)
      requires !HasChild(disk.files.upper, path) && !HasChild(View(), path)
      modifies this`disk, this`trace, this`tombstones, this`cache
      ensures Consistent() && (old(InSync()) ==> InSync()) && Extends(old(trace), trace)
      ensures status.Some? <==> StopsRemoval(fault, path in old(disk.files.upper))
      ensures View() == if status.Some? then old(View()) else old(View()) - {path}
      ensures old(InSync()) ==>
        if fault.PublishCall? && status.Some?
          then EitherTree(base, trace, |old(trace)|, k, old(View()), old(View()) - {path})
        else CrashAtomic(base, trace, |old(trace)|, k, old(View()), View())
    {
      hide RecoversTo, RecoversNear, Committed, CrashAtomic, EitherTree, GoingForward, Unpublished, Prune, HasChild,
        Overlay.Lookup, Overlay.View, Overlay.Sound, Coherent;
      ghost var o, f := Now(), disk.files;
      RemovalEffects(o, path, cache);
      status, k := RemoveVisibleEntryAtomically(kind, path, fault);
      assert Now() == if status.Some? then o else o.(upper := Prune(o.upper, path), tombs := AddTomb(o, path));
      if InSync() && f.tombs == o.tombs {
        RemovalCrash(base, trace, |old(trace)|, k, o, f, RemovalOf(o, workspace, kind, path), fault, status, View());
      }
    }

    // chmod, utimens, truncate and write share one shape: copy the entry, edit the copy, publish it.
    twostate predicate Edits(path: Path, edit: Plain.Edit, through: Option<Errno>, fault: Fault,
                             new status: Option<Errno>, k: nat)
      requires path in old(View())
      reads this
    {
      var o, plain := old(Now()), Barred(old(Now()), path, Plain.EditAt(old(View()), path, edit, through));
      var copied, staged := CopiedParents(o, path, fault), StagedAnew(old(View()), path, edit);
      && Traced() && Now().Sound() && (old(InSync()) ==> InSync()) && Extends(old(trace), trace)
      && (path != [] || status.Some? || NothingListedBelow(old(cache)) ==> Consistent())
      && (status.None? ==> !Stops(o, path, fault))
      && Agrees(Anew(plain, copied + staged, umask), Remade(old(View()), copied, umask), fault, status, View())
      && (path != [] && ReplacesInPlace(o, path) ==> Crashes(path, plain, copied, staged, fault, k))
      && (path == [] ==> forall i | |old(trace)| <= i < |trace| ::
          trace[i].journal != [] <==> RefusedWith(trace[i], UnsafePath))
      && (path == [] ==> if fault.JournalWrite? || fault.JournalBegin? then trace == old(trace)
          else |old(trace)| < |trace| && trace[|old(trace)|].journal != [])
      && (k < |trace| <==>
            !Stops(o, path, fault) && ReachesCommit(CopyAndEdit(path, edit, through), old(View()), umask, fault))
      && (path != [] && !ReplacesInPlace(o, path) ==>
            && (old(InSync()) ==> BarredBehaviour(base, trace, |old(trace)|, k, copied, umask, old(View())))
            && (k < |trace| ==> RefusedWith(trace[k], CannotPublish)))
    }

    method EditEntry(kind: Kind, path: Path, edit: Plain.Edit, through: Option<Errno>, fault: Fault)
      returns (status: Option<Errno>, ghost k: nat)
      requires Consistent() && Staged(kind) && !kind.Rename? && path in View()
      modifies this`disk, this`trace, this`tombstones, this`cache
      ensures Edits(path, edit, through, fault, status, k)
        && EditEnds(old(Now()), View(), path, edit, through, fault, umask, status)
    {
      hide Traced, RecoversNear, RecoversTo, Coherent, Overlay.Sound, Overlay.View, Plain.ParentStatus, CopiedParents,
        MutationOutcome, Remade, CrashBehaviour, StagedAnew, RefusedWith, EditEnds, Barred, Agrees;
      ghost var o := Now();
      CopiedOnTheWay(Now(), path, fault);
      EditAgrees(Now(), path, edit, through, CopiedParents(Now(), path, fault), umask);
      status, k := StagedMutation(kind, path, CopyAndEdit(path, edit, through), fault);
      EditAnswer(o, path, edit, through, CopiedParents(o, path, fault), fault, umask, status, View());
    }

    // A call on a path where nothing is visible.
    twostate predicate NoSuchEntry(path: Path, new status: Option<Errno>, k: nat)
      reads this
    {
      path !in old(View()) && status == Some(ENOENT) && Consistent() && unchanged(this) && k == |trace|
    }

    /** chmod fails exactly where the reference fails, and on directories the upper tree holds non-empty. */
    method Chmod(path: Path, mode: Mode, through: Option<Errno>, fault: Fault)
      returns (status: Option<Errno>, ghost k: nat)
      requires Consistent()
      modifies this`disk, this`trace, this`tombstones, this`cache
      ensures if path in old(View()) then Edits(path, Plain.SetMode(mode), through, fault, status, k)
        else NoSuchEntry(path, status, k)
      ensures EditEnds(old(Now()), View(), path, Plain.SetMode(mode), through, fault, umask, status)
    {
      hide Traced, EditEnds;
      k := |trace|;
      var found := FindVisibleEntryLayer(path);
      if found.Missing? {
        NoEntryEnds(Now(), path, Plain.SetMode(mode), through, fault, umask);
        return Some(ENOENT), k;
      }
      status, k := EditEntry(Kind.Chmod, path, Plain.SetMode(mode), through, fault);
    }

    method Utimens(path: Path, through: Option<Errno>, fault: Fault) returns (status: Option<Errno>, ghost k: nat)
      requires Consistent()
      modifies this`disk, this`trace, this`tombstones, this`cache
      ensures if path in old(View()) then Edits(path, Plain.SetTimes, through, fault, status, k)
        else NoSuchEntry(path, status, k)
      ensures EditEnds(old(Now()), View(), path, Plain.SetTimes, through, fault, umask, status)
    {
      hide Traced, EditEnds;
      k := |trace|;
      var found := FindVisibleEntryLayer(path);
      if found.Missing? {
        NoEntryEnds(Now(), path, Plain.SetTimes, through, fault, umask);
        return Some(ENOENT), k;
      }
      status, k := EditEntry(Kind.Utimens, path, Plain.SetTimes, through, fault);
    }

    method Truncate(path: Path, size: nat, through: Option<Errno>, fault: Fault)
      returns (status: Option<Errno>, ghost k: nat)
      requires Consistent()
      modifies this`disk, this`trace, this`tombstones, this`cache
      ensures Refines(Plain.EditAt(old(View()), path, Plain.Resize(size), through),
                      EditCopies(old(Now()), path, fault), fault, status)
      ensures Crashes(path, Plain.EditAt(old(View()), path, Plain.Resize(size), through),
                      EditCopies(old(Now()), path, fault), {}, fault, k)
      ensures EditEnds(old(Now()), View(), path, Plain.Resize(size), through, fault, umask, status)
    {
      hide Traced, EditEnds;
      k := |trace|;
      RemadeNothing(View(), umask);
      var found := FindVisibleEntryLayer(path);
      if found.Missing? {
        NoEntryEnds(Now(), path, Plain.Resize(size), through, fault, umask);
        return Some(ENOENT), k;
      }
      if found.inode.node.Dir? {
        DirectoryEnds(Now(), path, Plain.Resize(size), through, fault, umask);
        return Some(EISDIR), k;
      }
      status, k := EditLeaf(Kind.Truncate, path, Plain.Resize(size), through, fault);
    }

    // An edit of a file or symlink can always be put in place, and stages no directory.
    method EditLeaf(kind: Kind, path: Path, edit: Plain.Edit, through: Option<Errno>, fault: Fault)
      returns (status: Option<Errno>, ghost k: nat)
      requires Consistent() && Staged(kind) && !kind.Rename? && IsLeaf(View(), path)
      modifies this`disk, this`trace, this`tombstones, this`cache
      ensures status.None? ==> !Stops(old(Now()), path, fault)
      ensures Refines(Plain.EditAt(old(View()), path, edit, through), EditCopies(old(Now()), path, fault), fault,
                      status)
      ensures old(InSync()) ==>
        EditCrash(base, trace, |old(trace)|, k, old(Now()), umask, path, edit, through, fault, View())
      ensures EditEnds(old(Now()), View(), path, edit, through, fault, umask, status)
    {
      hide EditEnds, Traced, RecoversNear, RecoversTo, Coherent, Overlay.Sound, Overlay.View, CopiedParents, Remade,
        CrashBehaviour, StagedAnew, RefusedWith, ReplacesInPlace;
      LeafEdits(Now(), path, edit, through, CopiedParents(Now(), path, fault), umask);
      status, k := EditEntry(kind, path, edit, through, fault);
    }

    /**
      Two journaled operations: a missing file is created empty, then written.  If the first succeeds
      and the second fails, the call fails and leaves the empty file.  `first` is how the first ends,
      and `between` the overlay between the two.
     */
    method WriteFile(path: Path, offset: nat, bytes: seq<Byte>, through: Option<Errno>, creating: Fault, writing: Fault)
      returns (status: Option<Errno>, ghost first: Option<Errno>, ghost k: nat, ghost mid: nat, ghost k': nat,
               ghost between: Overlay)
      requires Consistent()
      modifies this`disk, this`trace, this`tombstones, this`cache
      ensures Consistent() && (old(InSync()) ==> InSync()) && Extends(old(trace), trace)
        && |old(trace)| <= mid <= |trace|
      ensures Opened(old(Now()), between, path, true, false, Masked(0x1A4, umask), umask, creating, first)
      ensures CreatedThenWritten(old(Now()), View(), path, offset, bytes, Masked(0x1A4, umask), umask, through,
                                 creating, writing, first, status)
      ensures status.Some? && path != [] && path !in old(View()) ==>
        (View() == Remade(old(View()), CopiedParents(old(Now()), path, creating), umask) <==> first.Some?)
      ensures status.None? ==> FileWritten(old(View()), View(), path, offset, bytes, umask)
      ensures creating.NoFault? && Fatal(writing) && path !in old(View()) &&
              Plain.Create(old(View()), path, File(Masked(0x1A4, umask), [])).Done? ==>
        status.Some? && path in View()
      ensures old(InSync()) ==>
        && CreationCrash(base, trace[..mid], |old(trace)|, k, old(Now()), umask, path, creating, between.View())
        && EditCrash(base, trace, mid, k', between, umask, path, Plain.WriteAt(offset, bytes), through, writing, View())
    {
      hide Traced, CreationCrash, EditCopies, CreateCopies, CrashBehaviour, Committed, RecoversTo, Coherent,
        Overlay.Sound, Overlay.View, Overlay.Lookup, CopiedParents, Remade, Plain.EditAt, Plain.WriteFile, Opened,
        CreatedThenWritten, FileWritten, TreeExtended, EditEnds;
      ghost var o := Now();
      status, k := OpenForWriting(path, true, false, creating);
      first, mid, k', between := status, |trace|, |trace|, Now();
      assert trace[..mid] == trace;
      if status.Some? {
        OpenFailed(o, between, path, offset, bytes, Masked(0x1A4, umask), umask, through, creating, writing, status);
        LeavesCreated(o, View(), path, offset, bytes, Masked(0x1A4, umask), umask, through, creating, writing, first,
                      status);
        OpenSucceeds(o, between, path, Masked(0x1A4, umask), umask, creating, first);
        NothingWritten(base, trace, between, umask, path, Plain.WriteAt(offset, bytes), through, writing);
        return;
      }
      ghost var before := trace;
      HandleIsEdit(between, path, offset, bytes, through, writing);
      status, k' := WriteOpened(path, offset, bytes, through, writing);
      assert trace[..mid] == before;
      WrittenAfterOpen(o, between, View(), path, offset, bytes, Masked(0x1A4, umask), umask, through, creating,
                       writing, status);
      WriteFileAnswer(o, path, offset, bytes, Masked(0x1A4, umask), through, creating, writing, umask, first, status,
                      View());
      LeavesCreated(o, View(), path, offset, bytes, Masked(0x1A4, umask), umask, through, creating, writing, first,
                    status);
    }

    // The first half of open_handle: find the file, or create it with O_CREAT.
    method OpenForWriting(path: Path, create: bool, exclusive: bool, fault: Fault)
      returns (status: Option<Errno>, ghost k: nat)
      requires Consistent()
      modifies this`disk, this`trace, this`tombstones, this`cache
      ensures Consistent() && (old(InSync()) ==> InSync()) && Extends(old(trace), trace)
      ensures status.None? ==> IsLeaf(View(), path)
      ensures Opened(old(Now()), Now(), path, create, exclusive, Masked(0x1A4, umask), umask, fault, status)
      ensures create && old(InSync()) ==>
        CreationCrash(base, trace, |old(trace)|, k, old(Now()), umask, path, fault, View())
      ensures !create ==> unchanged(this) && k == |trace|
      ensures path !in old(View()) && status.None? ==>
        TreeExtended(old(View()), View(), path, File(0x1A4 & !umask, []), umask)
      ensures status.None? ==> if path in old(View()) then !(create && exclusive) else create
    {
      hide Traced, RecoversNear, RecoversTo, Coherent, CopiedParents, Remade, TreeExtended;
      k := |trace|;
      RemadeNothing(View(), umask);
      if path == [] { return Some(EISDIR), k; }
      var found := FindVisibleEntryLayer(path);
      if found.Missing? {
        if !create { return Some(ENOENT), k; }
        status, k := AddEntry(Kind.Create, path, File(Masked(0x1A4, umask), []), fault);
      } else {
        status := if found.inode.node.Dir? then Some(EISDIR) else if create && exclusive then Some(EEXIST) else None;
      }
    }

    /** With O_TRUNC a second journaled operation empties the file, even one that was just created. */
    method OpenHandle(path: Path, create: bool, exclusive: bool, truncate: bool, through: Option<Errno>,
                      creating: Fault, truncating: Fault)
      returns (status: Option<Errno>, ghost first: Option<Errno>, ghost k: nat, ghost mid: nat, ghost k': nat,
               ghost between: Overlay)
      requires Consistent()
      modifies this`disk, this`trace, this`tombstones, this`cache
      ensures Consistent() && (old(InSync()) ==> InSync()) && Extends(old(trace), trace)
        && |old(trace)| <= mid <= |trace|
      ensures Opened(old(Now()), between, path, create, exclusive, Masked(0x1A4, umask), umask, creating, first)
      ensures first.Some? || !truncate ==> status == first && Now() == between && mid == |trace|
      ensures create && old(InSync()) ==>
        CreationCrash(base, trace[..mid], |old(trace)|, k, old(Now()), umask, path, creating, between.View())
      ensures !create ==> mid == |old(trace)|
      ensures first.None? && truncate && status.None? ==>
        TreeEdited(between.View(), View(), path, Plain.Resize(0), umask)
      ensures first.None? && truncate ==>
        && IsLeaf(between.View(), path)
        && Agrees(Anew(Plain.EditAt(between.View(), path, Plain.Resize(0), through),
                       EditCopies(between, path, truncating), umask),
                         Remade(between.View(), EditCopies(between, path, truncating), umask), truncating, status,
                         View())
        && (old(InSync()) ==>
              EditCrash(base, trace, mid, k', between, umask, path, Plain.Resize(0), through, truncating, View()))
    {
      hide Traced, CreationCrash, EditCrash, CrashBehaviour, RecoversTo, Coherent, Overlay.Sound, Overlay.View,
        Overlay.Lookup, CopiedIf, CreateCopies, EditCopies, Remade, Plain.EditAt, Plain.Create, Opened, Agrees, Anew,
        Stops, TreeEdited, TreeExtended;
      status, k := OpenForWriting(path, create, exclusive, creating);
      first, mid, k', between := status, |trace|, |trace|, Now();
      ghost var before := trace;
      assert trace[..mid] == before;
      if status.None? && truncate {
        status, k' := EditLeaf(Kind.Truncate, path, Plain.Resize(0), through, truncating);
        assert trace[..mid] == before;
      }
    }

    // write_handle: whatever is at the handle's path by now.
    method WriteOpened(path: Path, offset: nat, bytes: seq<Byte>, through: Option<Errno>, fault: Fault)
      returns (status: Option<Errno>, ghost k: nat)
      requires Consistent() && path != []
      modifies this`disk, this`trace, this`tombstones, this`cache
      ensures status.None? ==> !Stops(old(Now()), path, fault)
      ensures Refines(Plain.WriteHandle(old(View()), path, offset, bytes, through),
                      CopiedParents(old(Now()), path, fault), fault, status)
      ensures Crashes(path, Plain.WriteHandle(old(View()), path, offset, bytes, through),
                      CopiedParents(old(Now()), path, fault), {}, fault, k)
      ensures path in old(View()) ==>
        EditEnds(old(Now()), View(), path, Plain.WriteAt(offset, bytes), through, fault, umask, status)
      ensures path !in old(View()) ==>
        status.Some? && View() == Remade(old(View()), CopiedParents(old(Now()), path, fault), umask)
    {
      hide EditEnds, Traced, CrashBehaviour, Coherent, Overlay.Sound, Overlay.View, CopiedParents, Remade, Agrees;
      ghost var o := Now();
      var found := FindVisibleEntryLayer(path);
      if found.Missing? {
        status, k := WriteGone(path, fault);
        GoneWrite(base, trace, |old(trace)|, o, path, offset, bytes, through, CopiedParents(o, path, fault), fault,
                  umask, status, View());
      } else if found.inode.node.Dir? {
        status, k := WriteDirectory(path, offset, bytes, through, fault);
      } else {
        HandleIsEdit(o, path, offset, bytes, through, fault);
        status, k := EditLeaf(Kind.Write, path, Plain.WriteAt(offset, bytes), through, fault);
      }
    }

    // The copy of a directory cannot be opened for writing.
    method WriteDirectory(path: Path, offset: nat, bytes: seq<Byte>, through: Option<Errno>, fault: Fault)
      returns (status: Option<Errno>, ghost k: nat)
      requires Consistent() && path != [] && path in View() && View()[path].Dir?
      modifies this`disk, this`trace, this`tombstones, this`cache
      ensures status.Some? && EditEnds(old(Now()), View(), path, Plain.WriteAt(offset, bytes), through, fault, umask,
                                       status)
      ensures Refines(Plain.WriteHandle(old(View()), path, offset, bytes, through),
                      CopiedParents(old(Now()), path, fault), fault, status)
      ensures Crashes(path, Plain.WriteHandle(old(View()), path, offset, bytes, through),
                      CopiedParents(old(Now()), path, fault), {}, fault, k)
    {
      hide Traced, RecoversNear, RecoversTo, Coherent, Overlay.Sound, Overlay.View, CopiedParents, Remade;
      ghost var o := Now();
      status, k := EditEntry(Kind.Write, path, Plain.WriteAt(offset, bytes), through, fault);
    }

    // Nothing is at the path, and so there is nothing to stage.
    method WriteGone(path: Path, fault: Fault) returns (status: Option<Errno>, ghost k: nat)
      requires Consistent() && path != [] && path !in View()
      modifies this`disk, this`trace, this`cache
      ensures Consistent() && (old(InSync()) ==> InSync()) && Extends(old(trace), trace) && k == |trace|
      ensures status.Some? && View() == Remade(old(View()), CopiedParents(old(Now()), path, fault), umask)
      ensures fault.NoFault? ==>
        status == match Plain.ParentStatus(old(View()), path) case Some(e) => Some(e) case None => Some(ENOENT)
      ensures old(InSync()) ==> forall v' ::
        CallAtomic(base, trace, |old(trace)|, k, old(View()), CopiedParents(old(Now()), path, fault), umask, v')
    {
      hide Traced, CallStep, RecoversTo, RecoversNear, Committed, Coherent, Overlay.Sound, Overlay.View, CopiedParents,
        Remade, SameBelow, Preparing, Plain.ParentStatus, Unpublished;
      ghost var o, ds := Now(), CopiedParents(Now(), path, fault);
      status := CreateMissingUpperParentDirectories(path, fault);
      ghost var mid, p := trace, Now();
      if status.None? { status := StageNothing(path, fault); } else { NothingStaged(trace, disk.files, path); }
      k := |trace|;
      if old(InSync()) {
        NearAfter(base, mid, trace, |old(trace)|, o.View(), p, ds, umask, disk.files, path);
        FailedInTime(base, trace, |old(trace)|, o.View(), ds, umask);
      }
    }

    // The record is written and rolled back.
    method StageNothing(path: Path, fault: Fault) returns (status: Option<Errno>)
      requires Consistent() && path != []
      modifies this`disk, this`trace, this`cache
      ensures Consistent() && Now() == old(Now()) && disk.files == old(disk.files) && tombstones == old(tombstones)
      ensures Extends(old(trace), trace) && status.Some? && (fault.NoFault? ==> status == Some(ENOENT))
      ensures Unpublished(trace, |old(trace)|, |trace|, old(disk.files), path)
    {
      hide Traced, CallStep, Coherent, Overlay.Sound, Overlay.View, Unpublished;
      NothingStaged(trace, disk.files, path);
      if fault.JournalWrite? { return Some(EIO); }
      StillCoherent(Now(), cache, path);
      cache := Forgotten(cache, path);
      if fault.JournalBegin? { return Some(EIO); }
      var op := Operation(disk.nextId, workspace, Kind.Write, path, [], Prepared, false, false);
      Beginning(workspace, disk, op);
      Commit(disk.(journal := [op], nextId := op.id + 1));
      ghost var begun := disk;
      AbandonOperation(op.id);
      BuildingIsPreparing(trace, |old(trace)|, begun, old(disk.files));
      status := Some(if fault.RecoveryDir? then EIO else ENOENT);
    }

    // ----- rename -----

    /**
      The second half of rename, once the parents of `to` are in place.  The engine stays consistent
      if and only if no Base entry comes to show beneath a non-directory.
     */
    method PublishRename(from: Path, to: Path, fault: Fault) returns (status: Option<Errno>, ghost k: nat)
      requires Consistent() && RenameAllowed(Now(), from, to)
      modifies this`disk, this`trace, this`tombstones, this`cache
      ensures Traced()
      ensures Extends(old(trace), trace) && |old(trace)| <= k <= |trace|
      ensures status.Some? ==>
        Consistent() && View() == old(View()) && disk.files == old(disk.files) && tombstones == old(tombstones)
      ensures status.None? ==> (Consistent() <==> SoundRename(old(Now()), from, to))
      ensures status.None? ==>
        (View() == MovedAs(old(View()), from, to, Copied(Subtree(old(View()), from), umask)) <==>
         CleanRename(old(Now()), from, to))
      ensures fault.NoFault? ==> status.None?
      ensures old(InSync()) ==> (InSync() <==> status.Some? || NoFoldClash(AddTomb(old(Now()), from), to))
      ensures old(InSync()) && InSync() && !fault.PublishCall? &&
              (status.None? ==> SoundRename(old(Now()), from, to)) ==>
        CrashAtomic(base, trace, |old(trace)|, k, old(View()), View())
      ensures !fault.PublishCall? ==> DurablyAtomic(trace, |old(trace)|, k, old(disk.files), disk.files)
      ensures Fatal(fault) ==> status.Some?
      ensures fault.PublishCall? ==>
        RenameGivenUp(trace, k, old(disk.files), RenameOf(old(Now()), workspace, from, to),
                      Copied(Subtree(old(View()), from), umask))
      ensures fault.PublishCall? && old(InSync()) ==> forall i | |old(trace)| <= i < k ::
        RecoversTo(base, trace[i], old(View())) && !Committed(trace[i])
    {
      hide Traced, RecoversTo, Committed, Coherent, Graft, Planned, PublicationStatus, PlanStatus, CrashAtomic,
        MovedAs, DurablyAtomic, GivenUp, Abandoning, RenameGivenUp, Subtree;
      ghost var o, listings, f := Now(), cache, disk.files;
      var visible := BaseIsVisible(from);
      var request := Operation(0, workspace, Kind.Rename, from, to, Prepared, visible && from in base, true);
      ghost var stage;
      RenamePublication(o, from, to, request, umask);
      status, k, stage := PublishStagedOperation(request, CopyOf(from), fault);
      RenameForgets(o, from, to, request, listings);
      TombsAgree(f.tombs, request);
      if fault.PublishCall? {
        StageOfRename(o, from, to, umask, stage);
        RenameAbandoned(base, trace, |old(trace)|, k, o, f, request, stage);
      } else {
        ProtocolIsDurable(trace, |old(trace)|, k, f, request, stage, disk.files);
      }
      if status.None? {
        StageOfRename(o, from, to, umask, stage);
        assert Now() == Renamed(o, from, to, stage);
        RenameSound(o, from, to, stage);
        RenameCoherent(o, from, to, stage, listings);
        RenameView(o, from, to, stage);
      }
      if old(InSync()) && InSync() && !fault.PublishCall? && (status.None? ==> SoundRename(o, from, to)) {
        ProtocolIsAtomic(base, trace, |old(trace)|, k, f, request, stage, o.View(), View());
      }
    }

    method CheckRename(from: Path, to: Path) returns (status: Option<Errno>)
      requires Consistent()
      ensures status == Plain.RenameObstacle(View(), from, to)
      ensures status.None? && from != to ==> RenamePermitted(View(), from, to)
    {
      if from == [] || to == [] { return Some(EBUSY); }
      if from == to { return None; }
      if Under(to, from) { return Some(EINVAL); }
      var source := FindVisibleEntryLayer(from);
      if source.Missing? { return Some(ENOENT); }
      var destination := FindVisibleEntryLayer(to);
      if !destination.Missing? {
        if source.inode.node.Dir? && !destination.inode.node.Dir? { return Some(ENOTDIR); }
        if !source.inode.node.Dir? && destination.inode.node.Dir? { return Some(EISDIR); }
        if destination.inode.node.Dir? {
          var children := MergeVisibleDirectoryEntries(to);
          EmptyListing(Now(), to);
          if children != map[] { return Some(ENOTEMPTY); }
        }
      }
      status := None;
    }

    /**
      A rename fails as the reference fails, and a successful one is the reference's subtree move,
      with the copied directories made anew, if and only if it is clean.
     */
    method Rename(from: Path, to: Path, fault: Fault) returns (status: Option<Errno>, ghost k: nat)
      requires Consistent()
      modifies this`disk, this`trace, this`tombstones, this`cache
      ensures Traced() && Extends(old(trace), trace)
      ensures Consistent() <==> status.Some? || from == to || SoundRename(old(Now()), from, to)
      ensures RenameOutcome(old(Now()), View(), from, to, RenameCopies(old(Now()), from, to, fault), umask, fault,
                            status)
      ensures old(InSync()) ==> (InSync() <==> status.Some? || from == to || NoFoldClash(AddTomb(old(Now()), from), to))
      ensures old(InSync()) && InSync() && Consistent() && !GivesUp(old(View()), from, to, fault) ==>
        CallAtomic(base, trace, |old(trace)|, k, old(View()), RenameCopies(old(Now()), from, to, fault), umask, View())
      ensures GivesUp(old(View()), from, to, fault) ==>
        && RenameGivenUp(trace, k, disk.files, RenameOf(old(Now()), workspace, from, to),
                         Copied(Subtree(Remade(old(View()), RenameCopies(old(Now()), from, to, fault), umask), from),
                                umask))
        && (old(InSync()) ==> |old(trace)| <= k && forall i | |old(trace)| <= i < k ::
              RecoversNear(base, trace[i], old(View()), RenameCopies(old(Now()), from, to, fault), umask)
                && !Committed(trace[i]))
    {
      hide Traced, RecoversTo, RecoversNear, Committed, Coherent, Overlay.Sound, Overlay.View, Overlay.Lookup,
        CopiedBy, CopiedParents, Remade, CleanRename, SoundRename;
      hide MovedAs, Plain.Moved, NoFoldClash, AddTomb, CallAtomic, CrashAtomic, RenameGivenUp, RenameOutcome,
        Plain.ParentStatus, SameBelow, DurablyAtomic;
      k := |trace|;
      ghost var o, ds := Now(), RenameCopies(Now(), from, to, fault);
      status := CheckRename(from, to);
      if status.Some? || from == to {
        RenameEndsEarly(o, from, to, ds, umask, fault, status);
        FailedInTime(base, trace, |trace|, o.View(), ds, umask);
        return;
      }
      status := CreateMissingUpperParentDirectories(to, fault);
      k := |trace|;
      RenameReaches(o, Now(), from, to, ds, umask, fault, status);
      if status.Some? {
        if old(InSync()) { FailedInTime(base, trace, |old(trace)|, o.View(), ds, umask); }
        return;
      }
      ghost var mid, p, files := trace, Now(), disk.files;
      status, k := PublishRename(from, to, fault);
      CopiedOnTheWay(o, to, fault);
      RenameDone(o, p, View(), from, to, ds, umask, fault, status);
      if GivesUp(o.View(), from, to, fault) {
        SameGivenUp(trace, k, files, disk.files, RenameOf(o, workspace, from, to),
                    Copied(Subtree(p.View(), from), umask));
        if old(InSync()) { NearBefore(base, mid, trace, |old(trace)|, k, o.View(), ds, umask); }
      }
      if CrashAtomic(base, trace, |mid|, k, p.View(), View()) && old(InSync()) {
        ExactIsCall(base, trace, |mid|, k, p.View(), umask, View());
        JoinAtomic(base, mid, trace, |old(trace)|, k, o.View(), ds, umask, View());
      }
    }
  }

  // ----- opening after a crash -----

  // "gitdir: ", with which the first line of a Workspace's .git file starts.
  const POINTER_MARKER: seq<Byte> := [103, 105, 116, 100, 105, 114, 58, 32]

  // A symlink is followed out of these trees, where Git's answer decides.
  predicate IsPointer(n: Node) {
    match n
    case File(_, data) => POINTER_MARKER <= data
    case Link(_) => true
    case Dir(_) => false
  }

  predicate HoldsPointer(l: Layer) { [GIT_DIR] in l && IsPointer(l[[GIT_DIR]].node) }

  predicate ShowsPointer(v: Tree) { [GIT_DIR] in v && IsPointer(v[[GIT_DIR]]) }

  // No Base state holds a .git entry: capture leaves Git's metadata out.
  lemma PointerShows(o: Overlay)
    requires [GIT_DIR] !in o.base
    ensures HoldsPointer(o.upper) <==> ShowsPointer(o.View())
  {
    ViewAt(o, [GIT_DIR]);
  }

  /**
    Crash, recover, validate and open.  The Project is refused exactly if the recovered upper tree has
    no .git pointer or Git does not agree with it; otherwise the engine shows the tree that the crashed
    state stands for.
   */
  method Restart(workspace: Name, base: Layer, umask: Mode, crashed: Disk, git: bool, ghost v: Tree)
    returns (engine: WorkspaceEngine?)
    requires RecoversTo(base, crashed, v)
    ensures Recover(crashed, MaskedDir(0x1FF, umask)).Ok?
    ensures engine == null <==> !(git && HoldsPointer(Recover(crashed, MaskedDir(0x1FF, umask)).value.files.upper))
    ensures [GIT_DIR] !in base ==> (engine == null <==> !(git && ShowsPointer(v)))
    ensures engine != null ==> fresh(engine) && engine.Consistent() && engine.InSync() && engine.View() == v
    ensures engine != null ==> engine.base == base && engine.umask == umask && engine.workspace == workspace
  {
    Reopens(base, crashed, v, MaskedDir(0x1FF, umask));
    var recovered := Recover(crashed, MaskedDir(0x1FF, umask)).value;
    if [GIT_DIR] !in base { PointerShows(Overlay(base, recovered.files.upper, recovered.files.tombs)); }
    if !(git && HoldsPointer(recovered.files.upper)) { return null; }
    engine := new WorkspaceEngine(workspace, base, umask, recovered);
  }
}
