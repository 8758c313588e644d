/**
  Building a stage and removing it, entry by entry.
 */
module StageStates {
  import opened Layers
  import opened OverlayLaws
  import opened Journal
  import opened Abandonment
  import opened Listings
  import opened Staging
  import opened CallStates

  // d and e differ in their staged entries only.
  ghost predicate SameButStages(d: Disk, e: Disk) {
    d == e.(files := e.files.(stages := d.files.stages))
  }

  // The staged copy gets as far as the commit of the publishing phase.
  predicate ReachesCommit(plan: Plan, v: Tree, umask: Mode, fault: Fault)
    requires !plan.NewEntry? ==> plan.relative in v
  {
    && PlanStatus(plan, v, umask) == None && (Fatal(fault) ==> fault.PublishCall?)
    && (fault.StageCopy? ==> !plan.NewEntry? && CopyStatus(v, plan.relative, fault) == None)
  }

  // e is d with some entries at and under p already removed.
  ghost predicate HalfRemoved(e: Disk, d: Disk, p: Path) {
    && e == d.(files := d.files.(upper := e.files.upper))
    && Prune(e.files.upper, p) == Prune(d.files.upper, p)
    && (forall q {:trigger q in e.files.upper} | q in e.files.upper :: q in d.files.upper)
  }

  lemma SmallerMap<T>(m: map<Path, T>, p: Path)
    requires p in m
    ensures |m - {p}| < |m|
  {
    assert (m - {p}).Keys == m.Keys - {p};
  }

  // e is d with some entries of the stage already removed, its root last.
  ghost predicate StageLeft(e: Disk, d: Disk, id: nat) {
    && SameButStages(e, d)
    && (id in e.files.stages ==>
          && id in d.files.stages && [] in e.files.stages[id] && Shrunk(d.files.stages[id], e.files.stages[id])
          && (WellFormedStage(d.files.stages[id]) ==> WellFormedStage(e.files.stages[id])))
  }

  // One entry of the stage is gone, and not its root.
  ghost predicate OneLess(d: Disk, e: Disk, id: nat) {
    && id in d.files.stages && id in e.files.stages
    && exists leaf :: leaf in d.files.stages[id] && leaf != [] && e.files.stages[id] == d.files.stages[id] - {leaf}
  }

  // From state `from` to the last state but one the stage loses entry after entry; in the last it is gone.
  ghost predicate EntryByEntry(states: seq<Disk>, from: nat, id: nat) {
    && from < |states| - 1 && id !in states[|states| - 1].files.stages
    && (forall i | from < i < |states| - 1 :: OneLess(states[i - 1], states[i], id))
  }

  ghost predicate AllBefore(states: seq<Disk>, from: nat, id: nat) {
    from < |states| && forall i | from < i < |states| :: OneLess(states[i - 1], states[i], id)
  }

  ghost predicate LastEntry(d: Disk, id: nat) { id in d.files.stages && d.files.stages[id].Keys == {[]} }

  // One entry of the stage is removed; the root takes the stage with it.
  function WithoutEntry(d: Disk, id: nat, leaf: Path): Disk
    requires id in d.files.stages
  {
    d.(files := d.files.(stages := if leaf == [] then d.files.stages - {id}
                         else d.files.stages[id := d.files.stages[id] - {leaf}]))
  }

  lemma StageStep(before: seq<Disk>, from: nat, id: nat, leaf: Path, o: Disk, d: Disk)
    requires before != [] && before[|before| - 1] == d && AllBefore(before, from, id) && StageLeft(d, o, id)
    requires id in d.files.stages && leaf in d.files.stages[id] && !HasChild(d.files.stages[id], leaf)
      && [] in d.files.stages[id]
    ensures var e := WithoutEntry(d, id, leaf);
            && StageLeft(e, o, id) && SameButStages(e, d) && e.files.stages - {id} == d.files.stages - {id}
            && (id in e.files.stages ==>
                [] in e.files.stages[id] && AllBefore(before + [e], from, id)
                  && |e.files.stages[id]| < |d.files.stages[id]|)
            && (id !in e.files.stages ==>
                EntryByEntry(before + [e], from, id) && LastEntry(d, id) && |d.files.stages[id]| > 0)
  {
    hide StageLeft, AllBefore, EntryByEntry;
    if leaf == [] {
      OnlyRoot(d.files.stages[id]);
      StageDropped(o, d, id);
      LostAll(before, from, id, WithoutEntry(d, id, leaf));
    } else {
      LeafGone(o, d, id, leaf);
      LostOne(before, from, id, leaf, WithoutEntry(d, id, leaf));
    }
  }

  lemma NothingLostYet(states: seq<Disk>, from: nat, id: nat)
    requires from == |states| - 1
    ensures AllBefore(states, from, id)
  {
  }

  lemma LostOne(states: seq<Disk>, from: nat, id: nat, leaf: Path, e: Disk)
    requires AllBefore(states, from, id)
    requires var d := states[|states| - 1];
             && id in d.files.stages && leaf in d.files.stages[id] && leaf != []
             && id in e.files.stages && e.files.stages[id] == d.files.stages[id] - {leaf}
    ensures AllBefore(states + [e], from, id)
  {
    var all := states + [e];
    forall i | from < i < |all| ensures OneLess(all[i - 1], all[i], id) {
      if i < |states| { assert OneLess(states[i - 1], states[i], id); }
    }
  }

  lemma LostAll(states: seq<Disk>, from: nat, id: nat, e: Disk)
    requires AllBefore(states, from, id) && id !in e.files.stages
    ensures EntryByEntry(states + [e], from, id)
  {
    var all := states + [e];
    forall i | from < i < |all| - 1 ensures OneLess(all[i - 1], all[i], id) {
      assert OneLess(states[i - 1], states[i], id);
    }
  }

  // The states of a rollback after the phase commit, as recovery sees them.
  lemma StatesGivenUp(states: seq<Disk>, k: nat, f: Files, request: Operation, op: Operation, stage: Layer)
    requires k + 3 <= |states| && op == request.(id := op.id, phase := Publishing) && WellFormedStage(stage)
    requires var d := states[k];
             && d.journal == [op] && d.files.upper == f.upper && d.files.tombs == f.tombs && op.id in d.files.stages
                  && d.files.stages[op.id] == stage
             && (forall i | k < i < |states| - 1 :: StageLeft(states[i], d, op.id))
             && states[|states| - 1] == states[|states| - 2].(journal := [])
    requires EntryByEntry(states[..|states| - 1], k, op.id) && LastEntry(states[|states| - 3], op.id)
    ensures GivenUp(states, k, f, request, stage)
  {
    var id, most := op.id, states[..|states| - 1];
    forall i | k < i < |states| - 2 ensures LosesOne(states[i - 1], states[i]) {
      assert OneLess(most[i - 1], most[i], id);
      assert states[i - 1].journal == [op] && states[i].journal == [op];
    }
    assert most[|most| - 1] == states[|states| - 2];
  }

  lemma BuildingIsPreparing(states: seq<Disk>, from: nat, begun: Disk, f: Files)
    requires from < |states| && states[from] == begun && begun.files.upper == f.upper && begun.files.tombs == f.tombs
    requires |begun.journal| == 1 && begun.journal[0].phase.Prepared? && !Lifecycle(begun.journal[0].kind)
    requires forall i | from < i < |states| - 1 :: SameButStages(states[i], begun)
    requires |states| > from + 1 ==>
      SameButStages(states[|states| - 1], begun) || states[|states| - 1] == begun.(journal := [])
    ensures Unpublished(states, from, |states|, f, begun.journal[0].path)
  {
  }

  lemma NothingLost(d: Disk, id: nat)
    requires id in d.files.stages ==> [] in d.files.stages[id]
    ensures StageLeft(d, d, id)
  {
  }

  lemma LeafGone(o: Disk, d: Disk, id: nat, leaf: Path)
    requires StageLeft(d, o, id) && id in d.files.stages && leaf in d.files.stages[id] && leaf != []
      && !HasChild(d.files.stages[id], leaf)
    ensures var e := d.(files := d.files.(stages := d.files.stages[id := d.files.stages[id] - {leaf}]));
            && StageLeft(e, o, id) && [] in e.files.stages[id] && |e.files.stages[id]| < |d.files.stages[id]|
            && e.files.stages - {id} == d.files.stages - {id}
  {
    SmallerMap(d.files.stages[id], leaf);
    assert leaf in o.files.stages[id];
  }

  lemma StageDropped(o: Disk, d: Disk, id: nat)
    requires StageLeft(d, o, id)
    ensures StageLeft(d.(files := d.files.(stages := d.files.stages - {id})), o, id)
  {
  }

  lemma OnlyRoot<T>(m: map<Path, T>)
    requires [] in m && !HasChild(m, [])
    ensures |m| == 1 && m.Keys == {[]}
  {
    forall q | q in m ensures q == [] {
      assert q != [] ==> Under(q, []);
    }
    assert m.Keys == {[]};
  }

  // Copying the visible subtree at p fails at the faulty entry, if that is in it.
  function CopyStatus(v: Tree, p: Path, fault: Fault): Option<Errno> {
    if fault.StageCopy? && fault.at in v && AtOrUnder(fault.at, p) then Some(fault.errno) else None
  }

  lemma CopyFailsAbove(v: Tree, p: Path, n: Name, fault: Fault)
    ensures CopyStatus(v, Child(p, n), fault).Some? ==> CopyStatus(v, p, fault) == CopyStatus(v, Child(p, n), fault)
  {
    if fault.StageCopy? && AtOrUnder(fault.at, Child(p, n)) { UnderTransitive(fault.at, Child(p, n), p); }
  }

  lemma NothingBelow(o: Overlay, p: Path, fault: Fault)
    requires o.Sound() && p in o.View() && !o.View()[p].Dir? && (fault.StageCopy? ==> fault.at != p)
    ensures CopyStatus(o.View(), p, fault) == None
  {
    ViewIsTree(o);
    if fault.StageCopy? && fault.at in o.View() && AtOrUnder(fault.at, p) { assert Under(fault.at, p); }
  }

  lemma NoCopyFails(o: Overlay, p: Path, fault: Fault)
    requires o.Sound() && (fault.StageCopy? ==> fault.at != p)
    requires forall n | n in ListingOf(o, p) :: CopyStatus(o.View(), Child(p, n), fault) == None
    ensures CopyStatus(o.View(), p, fault) == None
  {
    ViewIsTree(o);
    if CopyStatus(o.View(), p, fault).Some? {
      var c := Child(p, fault.at[|p|]);
      assert AtOrUnder(fault.at, c);
      if fault.at != c { assert Under(fault.at, c); }
      ListedIffVisible(o, p, fault.at[|p|]);
    }
  }

  lemma ThroughNone<T>(s: map<Path, T>)
    requires [] in s
    ensures Through(s, {}) == map[[] := s[[]]]
  {
  }

  lemma LeafSubtree(v: Tree, p: Path, umask: Mode)
    requires IsTree(v) && p in v && !v[p].Dir?
    ensures Copied(Subtree(v, p), umask) == map[[] := v[p]]
  {
    var s := Copied(Subtree(v, p), umask);
    assert p + [] == p;
    forall q ensures q in s <==> q == [] {
      CopiedAt(v, p, umask, q);
      if q != [] { assert Under(p + q, p); }
    }
  }

  lemma ChildShrinks(v: Tree, p: Path, n: Name)
    requires p in v
    ensures (set q | q in v && AtOrUnder(q, Child(p, n))) < (set q | q in v && AtOrUnder(q, p))
  {
    var below, all := set q | q in v && AtOrUnder(q, Child(p, n)), set q | q in v && AtOrUnder(q, p);
    forall q | AtOrUnder(q, Child(p, n)) ensures AtOrUnder(q, p) { UnderTransitive(q, Child(p, n), p); }
    assert AtOrUnder(p, p) && !AtOrUnder(p, Child(p, n));
    assert p in all && p !in below;
  }

  ghost predicate OnlyStageChanged(d: Disk, e: Disk, id: nat) {
    SameButStages(d, e) && d.files.stages - {id} == e.files.stages - {id}
  }

  lemma FirstCopied(o: Overlay, p: Path, umask: Mode, was: Tree, at: Path)
    requires o.Sound() && p in o.View() && forall q | q in was :: !AtOrUnder(q, at)
    ensures was[at := CopiedNode(o.View()[p], umask)] ==
      Graft(was, at, Through(Copied(Subtree(o.View(), p), umask), {}))
    ensures !o.View()[p].Dir? ==>
      was[at := CopiedNode(o.View()[p], umask)] == Graft(was, at, Copied(Subtree(o.View(), p), umask))
  {
    ViewIsTree(o);
    CopiedAt(o.View(), p, umask, []);
    assert p + [] == p;
    ThroughNone(Copied(Subtree(o.View(), p), umask));
    GraftLeaf(was, at, CopiedNode(o.View()[p], umask));
    if !o.View()[p].Dir? { LeafSubtree(o.View(), p, umask); }
  }

  lemma UntouchedChild(was: Tree, at: Path, s: Tree, done: set<Name>, n: Name)
    requires n !in done && forall q | q in was :: !AtOrUnder(q, at)
    ensures forall q | q in Graft(was, at, Through(s, done)) :: !AtOrUnder(q, Child(at, n))
  {
    forall q | q in Graft(was, at, Through(s, done)) ensures !AtOrUnder(q, Child(at, n)) {
      if AtOrUnder(q, Child(at, n)) {
        SuffixBelow(q, at, n);
        UnderTransitive(q, Child(at, n), at);
      }
    }
  }

  lemma AllNamesListed(o: Overlay, p: Path, umask: Mode)
    requires o.Sound()
    ensures Through(Copied(Subtree(o.View(), p), umask), ListingOf(o, p).Keys) == Copied(Subtree(o.View(), p), umask)
  {
    var s := Copied(Subtree(o.View(), p), umask);
    ViewIsTree(o);
    forall q | q in s && q != [] ensures q[0] in ListingOf(o, p) {
      CopiedAt(o.View(), p, umask, q);
      var c := Child(p, q[0]);
      assert p + q == c + q[1..];
      if p + q != c { assert Under(p + q, c); }
      ListedIffVisible(o, p, q[0]);
    }
    ThroughAll(s, ListingOf(o, p).Keys);
  }

  lemma GraftWhole<T>(s: map<Path, T>)
    ensures Graft(map[], [], s) == s
  {
    forall q: Path ensures AtOrUnder(q, []) && q[0..] == q {}
    assert Graft(map[], [], s).Keys == s.Keys;
  }
}
