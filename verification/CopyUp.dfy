/**
  Copying up the directories on the way to an entry, one by one.
 */
module CopyUp {
  import opened Layers
  import opened OverlayLaws
  import opened Journal
  import opened Listings
  import opened CallStates
  import Plain = PlainTree

  // The directories on the way to p that only Base holds.
  ghost function BaseParents(o: Overlay, p: Path): set<Path> {
    set d | d in o.View() && Under(p, d) && d !in o.upper && o.View()[d].Dir?
  }

  // The fault strikes while parents are copied up.
  ghost predicate Stops(o: Overlay, p: Path, fault: Fault) {
    fault.ParentMkdir? && fault.level <= |p| && p[..fault.level] in BaseParents(o, p)
  }

  // The directories that copy-up makes on the way to p: all that only Base holds, unless a fault stops it.
  ghost function CopiedParents(o: Overlay, p: Path, fault: Fault): set<Path> {
    if Stops(o, p, fault) then set d | d in BaseParents(o, p)
      && (|d| < fault.level || (|d| == fault.level && fault.made))
    else BaseParents(o, p)
  }

  // ... and none if the call ends before it.
  ghost function CopiedIf(reached: bool, o: Overlay, p: Path, fault: Fault): set<Path> {
    if reached then CopiedParents(o, p, fault) else {}
  }

  function Blocked(v: Tree, d: Path): Option<Errno> {
    if d !in v then Some(ENOENT) else if !v[d].Dir? then Some(ENOTDIR) else None
  }

  ghost predicate SameBelow(upper: Layer, upper': Layer, p: Path) {
    && (forall q {:trigger q in upper'} | AtOrUnder(q, p) :: q in upper' <==> q in upper)
    && (forall q {:trigger upper'[q]} | AtOrUnder(q, p) && q in upper' && q in upper :: upper'[q] == upper[q])
  }

  // The first obstacle on the way down is the one that is reported.
  lemma WalkOne(v: Tree, p: Path, k: nat)
    requires 1 <= k < |p|
    ensures Plain.ParentStatus(v, p[..k]) == None ==>
      && Plain.ParentStatus(v, p[..k + 1]) == Blocked(v, p[..k])
      && (Blocked(v, p[..k]).Some? ==> Plain.ParentStatus(v, p) == Blocked(v, p[..k]))
  {
    assert Parent(p[..k + 1]) == p[..k];
    Obstacle(v, p, k);
  }

  lemma Obstacle(v: Tree, p: Path, k: nat)
    requires 1 <= k < |p|
    ensures Plain.ParentStatus(v, p[..k + 1]).Some? ==> Plain.ParentStatus(v, p) == Plain.ParentStatus(v, p[..k + 1])
    decreases |p|
  {
    if k + 1 == |p| {
      assert p[..k + 1] == p;
    } else {
      assert Parent(p)[..k + 1] == p[..k + 1];
      Obstacle(v, Parent(p), k);
    }
  }

  // o' is o with the directories c copied up.
  ghost predicate CopiedBy(o: Overlay, o': Overlay, c: set<Path>, umask: Mode) {
    && o'.base == o.base && o'.tombs == o.tombs && o'.Sound()
    && o'.upper.Keys == o.upper.Keys + c
         && (forall q {:trigger o'.upper[q]} | q in o.upper :: o'.upper[q] == o.upper[q])
    && o'.View() == Remade(o.View(), c, umask)
  }

  // What stops the way at d, read off the two layers.
  lemma BlockedNow(o: Overlay, was: Overlay, c: set<Path>, umask: Mode, d: Path)
    requires CopiedBy(o, was, c, umask) && d !in c
    ensures d in was.upper <==> d in o.upper
    ensures Blocked(o.View(), d) ==
            if d in was.upper then (if was.upper[d].node.Dir? then None else Some(ENOTDIR))
            else if !Unhidden(was.tombs, d) || d !in was.base then Some(ENOENT)
            else if was.base[d].node.Dir? then None else Some(ENOTDIR)
  {
    ViewAt(was, d);
    ViewAt(o, d);
    RemadeKinds(o.View(), c, umask);
  }

  lemma CopyUpOne(o: Overlay, was: Overlay, c: set<Path>, umask: Mode, d: Path, number: nat, cache: Cache)
    requires CopiedBy(o, was, c, umask) && d !in c && CanCopyUp(was, d) && Coherent(was, cache)
    ensures var o' := CopiedUp(was, umask, d, number);
            CopiedBy(o, o', c + {d}, umask) && o'.Sound() && Coherent(o', Forgotten(cache, d))
  {
    hide Overlay.Sound, Overlay.View, Overlay.Lookup, Unhidden, Coherent, Remade;
    CopyUpSound(was, umask, d, number);
    CopyUpView(was, umask, d, number);
    CopyUpCoherent(was, umask, d, number, cache);
    ShownByBase(was, d);
    RemadeKinds(o.View(), c, umask);
    RemadeOneMore(o.View(), c, d, umask);
  }

  lemma ShownByBase(o: Overlay, d: Path)
    requires CanCopyUp(o, d)
    ensures d in o.View() && o.View()[d] == o.base[d].node
  {
    ViewAt(o, d);
  }

  lemma RemadeOneMore(v: Tree, c: set<Path>, d: Path, umask: Mode)
    requires d in v && v[d].Dir? && d !in c
    ensures d in Remade(v, c, umask) && Remade(v, c, umask)[d] == v[d]
    ensures Remade(v, c, umask)[d := Dir(MaskedDir(v[d].mode, umask))] == Remade(v, c + {d}, umask)
  {
  }

  lemma CopyUpCoherent(o: Overlay, umask: Mode, d: Path, number: nat, cache: Cache)
    requires CanCopyUp(o, d) && Coherent(o, cache)
    ensures Coherent(CopiedUp(o, umask, d, number), Forgotten(cache, d))
  {
    hide Overlay.Sound, Unhidden;
    forall q ensures AtOrUnder(q, d) || CopiedUp(o, umask, d, number).Lookup(q) == o.Lookup(q) {
      assert AtOrUnder(d, d);
    }
    CacheSurvives(o, CopiedUp(o, umask, d, number), Forgotten(cache, d), d, d);
  }

  // The first k - 1 levels of the directories to copy.
  ghost function ParentsAbove(o: Overlay, p: Path, k: nat): set<Path> {
    set d | d in BaseParents(o, p) && |d| < k
  }

  lemma NothingCopied(o: Overlay, p: Path, umask: Mode)
    requires o.Sound()
    ensures ParentsAbove(o, p, 1) == {} && CopiedBy(o, o, {}, umask) && [] in o.upper && o.upper[[]].node.Dir?
    ensures forall fault | Stops(o, p, fault) :: 1 <= fault.level
  {
    RemadeNothing(o.View(), umask);
    forall d | d in BaseParents(o, p) ensures d != [] {}
  }

  lemma NextParent(o: Overlay, p: Path, k: nat)
    requires 1 <= k < |p|
    ensures p[..k] !in ParentsAbove(o, p, k)
    ensures p[..k] in BaseParents(o, p) <==> p[..k] !in o.upper && Blocked(o.View(), p[..k]) == None
    ensures ParentsAbove(o, p, k + 1) == ParentsAbove(o, p, k) + if p[..k] in BaseParents(o, p) then {p[..k]} else {}
    ensures forall d | d in BaseParents(o, p) && k <= |d| :: d == p[..k] || Under(d, p[..k])
  {
    assert Under(p, p[..k]);
    forall d | d in BaseParents(o, p) && k <= |d| ensures d == p[..k] || Under(d, p[..k]) {
      assert d[..k] == p[..k];
    }
  }

  // Copy-up ends at level k: with the fault, or at what blocks the way.
  lemma StoppedAt(o: Overlay, p: Path, k: nat, fault: Fault, c: set<Path>)
    requires o.Sound() && 1 <= k < |p| && (Stops(o, p, fault) ==> k <= fault.level)
    requires var d, b := p[..k], Blocked(o.View(), p[..k]);
             && (b.Some? || (d !in o.upper && fault.ParentMkdir? && fault.level == k))
             && c == if d !in o.upper && b == None && fault != ParentMkdir(k, false) then ParentsAbove(o, p, k) + {d}
                  else ParentsAbove(o, p, k)
    ensures c == CopiedParents(o, p, fault)
    ensures Stops(o, p, fault) <==> Blocked(o.View(), p[..k]).None?
  {
    ViewIsTree(o);
    NextParent(o, p, k);
    if Blocked(o.View(), p[..k]).Some? {
      forall d | d in BaseParents(o, p) ensures |d| < k {
        assert d in o.View() && o.View()[d].Dir?;
      }
    } else {
      forall d | d in BaseParents(o, p) && |d| == k ensures d == p[..k] {}
    }
  }

  lemma AllParents(o: Overlay, p: Path, k: nat, fault: Fault)
    requires |p| <= k && (Stops(o, p, fault) ==> k <= fault.level)
    ensures !Stops(o, p, fault) && ParentsAbove(o, p, k) == CopiedParents(o, p, fault) == BaseParents(o, p)
  {
  }

  lemma CopiedOnTheWay(o: Overlay, p: Path, fault: Fault)
    ensures OnTheWay(CopiedParents(o, p, fault), p)
  {
  }

  lemma CopiedBelow(o: Overlay, o': Overlay, c: set<Path>, umask: Mode, p: Path)
    requires CopiedBy(o, o', c, umask) && OnTheWay(c, p)
    ensures SameBelow(o.upper, o'.upper, p)
  {
  }

  // A durable state reached while parents are being copied up.
  ghost predicate CopyUpState(d: Disk, o: Overlay, rows: set<Path>, ds: set<Path>, umask: Mode) {
    && d.journal == [] && d.files.tombs == rows
    && exists c :: c <= ds && CopiedBy(o, Overlay(o.base, d.files.upper, o.tombs), c, umask)
  }

  lemma StatesGrow(states: seq<Disk>, from: nat, o: Overlay, rows: set<Path>, above: set<Path>, c: set<Path>,
                   umask: Mode, d: Disk)
    requires states != [] && from < |states| ==>
      (forall i | from <= i < |states| - 1 :: CopyUpState(states[i], o, rows, above, umask)) &&
      (CopyUpState(states[|states| - 1], o, rows, above, umask) || states[|states| - 1] == d)
    requires d.journal == [] && d.files.tombs == rows && above <= c
      && CopiedBy(o, Overlay(o.base, d.files.upper, o.tombs), c, umask)
    ensures forall i | from <= i < |states| :: CopyUpState(states[i], o, rows, c, umask)
  {
    hide CopiedBy;
  }

  lemma ParentsAreAtomic(base: Layer, umask: Mode, states: seq<Disk>, from: nat, hi: nat, rows: set<Path>, o: Overlay,
                         ds: set<Path>)
    requires from <= hi <= |states| && o.base == base
    requires forall i | from <= i < hi :: CopyUpState(states[i], o, rows, ds, umask)
    ensures rows == o.tombs ==> forall i | from <= i < hi ::
      RecoversNear(base, states[i], o.View(), ds, umask) && !Committed(states[i])
  {
    if rows == o.tombs {
      forall i | from <= i < hi ensures RecoversNear(base, states[i], o.View(), ds, umask) && !Committed(states[i]) {
        var c :| c <= ds && CopiedBy(o, Overlay(o.base, states[i].files.upper, o.tombs), c, umask);
        RecoverIdle(states[i]);
        assert ShowsSoundly(base, states[i].files.upper, states[i].files.tombs, Remade(o.View(), c, umask));
        assert RecoversTo(base, states[i], Remade(o.View(), c, umask));
      }
    }
  }
}
