/**
  The capture walk: what reaches the Base state, and the accounts it keeps.
 */
module BaseCapture {
  import opened Layers
  import opened Paths
  import opened CapturePolicy

  // ----- sizes -----

  function Bytes(project: Project, p: Path): nat {
    if p in project && project[p].kind.Regular? then project[p].size else 0
  }

  ghost function Total(project: Project, s: set<Path>): nat {
    if s == {} then 0
    else
      var p :| p in s;
      Bytes(project, p) + Total(project, s - {p})
  }

  lemma {:induction false} TotalAdd(project: Project, s: set<Path>, p: Path)
    requires p !in s
    ensures Total(project, s + {p}) == Total(project, s) + Bytes(project, p)
    decreases |s|
  {
    hide Bytes;
    var all := s + {p};
    var q :| q in all && Total(project, all) == Bytes(project, q) + Total(project, all - {q});
    if q == p {
      assert all - {p} == s;
    } else {
      assert all - {q} == (s - {q}) + {p};
      TotalAdd(project, s - {q}, p);
      TotalAdd(project, s - {q}, q);
      assert s - {q} + {q} == s;
    }
  }

  lemma {:induction false} TotalUnion(project: Project, a: set<Path>, b: set<Path>)
    requires a !! b
    ensures Total(project, a + b) == Total(project, a) + Total(project, b)
    decreases |b|
  {
    if b == {} {
      assert a + b == a;
    } else {
      var p :| p in b;
      TotalUnion(project, a, b - {p});
      assert a + b == a + (b - {p}) + {p};
      TotalAdd(project, a + (b - {p}), p);
      TotalAdd(project, b - {p}, p);
      assert b - {p} + {p} == b;
    }
  }

  // ----- the sets the walk accounts for -----

  // What is below d and captured; the policy file is accounted for separately.
  ghost function CapturedBelow(project: Project, policy: Policy, d: Path): (s: set<Path>)
    requires [] in project
    ensures forall p {:trigger p in s} ::
      p in s <==> p in project && Under(p, d) && p != [POLICY_FILE] && Captured(project, policy, p)
  {
    set p | p in project && Under(p, d) && p != [POLICY_FILE] && Captured(project, policy, p)
  }

  // What is below d, could be captured, and is not.
  ghost function ExcludedBelow(project: Project, policy: Policy, d: Path): (s: set<Path>)
    requires [] in project
    ensures forall p {:trigger p in s} ::
      p in s <==>
        p in project && Under(p, d) && p != [POLICY_FILE] && Reachable(project, p) && !Captured(project, policy, p)
  {
    set p | p in project && Under(p, d) && p != [POLICY_FILE] && Reachable(project, p) && !Captured(project, policy, p)
  }

  // c and what is below it.
  ghost function From(s: set<Path>, c: Path): (r: set<Path>)
    ensures forall p {:trigger p in r} :: p in r <==> p in s && AtOrUnder(p, c)
  {
    set p | p in s && AtOrUnder(p, c)
  }

  // The part of s below d that lies in the children named in `done`.
  ghost function Through(s: set<Path>, d: Path, done: set<Name>): (r: set<Path>)
    ensures forall p {:trigger p in r} :: p in r <==> p in s && Under(p, d) && p[|d|] in done
  {
    set p | p in s && Under(p, d) && p[|d|] in done
  }

  lemma ThroughNext(s: set<Path>, d: Path, done: set<Name>, n: Name)
    ensures Through(s, d, done + {n}) == Through(s, d, done) + From(s, Child(d, n))
  {
    forall p ensures AtOrUnder(p, Child(d, n)) <==> Under(p, d) && p[|d|] == n {
      if Under(p, d) && p[|d|] == n { assert p[..|d| + 1] == Child(d, n); }
    }
  }

  lemma BelowShrinks(project: Project, c: Path, d: Path)
    requires c in project && Under(c, d)
    ensures |Below(project, c)| < |Below(project, d)|
  {
    forall p | p in Below(project, c) ensures p in Below(project, d) { UnderTransitive(p, c, d); }
    assert c in Below(project, d) && c !in Below(project, c);
    SubsetSmaller(Below(project, c), Below(project, d));
  }

  ghost function Below(project: Project, d: Path): set<Path> {
    set p | p in project && Under(p, d)
  }

  function ChildNames(project: Project, d: Path): (names: set<Name>)
    ensures forall n {:trigger n in names} :: n in names <==> Child(d, n) in project
  {
    var names := set p | p in project && p != [] && Parent(p) == d :: p[|p| - 1];
    assert forall n | Child(d, n) in project :: n in names by {
      forall n | Child(d, n) in project ensures n in names { assert Child(d, n)[|Child(d, n)| - 1] == n; }
    }
    assert forall n | n in names :: Child(d, n) in project by {
      forall n | n in names ensures Child(d, n) in project {
        var p :| p in project && p != [] && Parent(p) == d && n == p[|p| - 1];
        assert p == Child(d, n);
      }
    }
    names
  }

  // The entries that directory_iterator delivers, in some order.
  ghost predicate Lists(project: Project, d: Path, names: seq<Name>) {
    && (forall i | 0 <= i < |names| :: Child(d, names[i]) in project)
    && (forall i, j | 0 <= i < j < |names| :: names[i] != names[j])
    && (forall n {:trigger Child(d, n)} | Child(d, n) in project :: n in names)
  }

  method ReadDirectory(project: Project, d: Path) returns (names: seq<Name>)
    ensures Lists(project, d, names)
  {
    hide ListsBut;
    var todo := ChildNames(project, d);
    names := [];
    NoneListed(project, d);
    while todo != {}
      invariant ListsBut(project, d, names, todo)
      decreases |todo|
    {
      var n :| n in todo;
      OneListed(project, d, names, todo, n);
      todo := todo - {n};
      names := names + [n];
    }
    AllListed(project, d, names);
  }

  // The names of d, but for those still to do.
  ghost predicate ListsBut(project: Project, d: Path, names: seq<Name>, todo: set<Name>) {
    && (forall n {:trigger Child(d, n)} | Child(d, n) in project :: n in names || n in todo)
    && (forall n | n in names :: Child(d, n) in project && n !in todo)
    && (forall n | n in todo :: Child(d, n) in project)
    && (forall i, j | 0 <= i < j < |names| :: names[i] != names[j])
  }

  lemma NoneListed(project: Project, d: Path)
    ensures ListsBut(project, d, [], ChildNames(project, d))
  {
  }

  lemma OneListed(project: Project, d: Path, names: seq<Name>, todo: set<Name>, n: Name)
    requires ListsBut(project, d, names, todo) && n in todo
    ensures ListsBut(project, d, names + [n], todo - {n})
  {
  }

  lemma AllListed(project: Project, d: Path, names: seq<Name>)
    requires ListsBut(project, d, names, {})
    ensures Lists(project, d, names)
  {
  }

  ghost function Seen(names: seq<Name>, i: nat): set<Name>
    requires i <= |names|
  {
    set k | 0 <= k < i :: names[k]
  }

  lemma SeenNext(project: Project, d: Path, names: seq<Name>, i: nat)
    requires Lists(project, d, names) && i < |names|
    ensures Seen(names, i + 1) == Seen(names, i) + {names[i]} && names[i] !in Seen(names, i)
      && Child(d, names[i]) in project
  {
  }

  // ----- how the predicates pass down -----

  // Nothing below an entry that cannot be reached can be reached.
  lemma {:induction false} ReachedThrough(project: Project, p: Path, c: Path)
    requires [] in project && AtOrUnder(p, c) && Reachable(project, p)
    ensures Reachable(project, c)
    decreases |p|
  {
    if p != c {
      assert AtOrUnder(Parent(p), c);
      ReachedThrough(project, Parent(p), c);
    }
  }

  lemma {:induction false} CapturedThrough(project: Project, policy: Policy, p: Path, c: Path)
    requires IsProject(project) && IsPolicyOf(policy, project) && p in project && AtOrUnder(p, c)
      && Captured(project, policy, p)
    ensures Captured(project, policy, c) && (p != [POLICY_FILE] ==> Reachable(project, p))
    decreases |p|
  {
    if p != [] && p != [POLICY_FILE] {
      if p != c { assert AtOrUnder(Parent(p), c); }
      CapturedThrough(project, policy, Parent(p), if p == c then Parent(p) else c);
      assert Parent(p) != [POLICY_FILE];
    }
  }

  lemma ChildBelowDirectory(project: Project, p: Path, c: Path)
    requires IsProject(project) && p in project && Under(p, c)
    ensures c in project && project[c].kind.Directory?
    decreases |p|
  {
    if Parent(p) != c {
      assert Under(Parent(p), c);
      ChildBelowDirectory(project, Parent(p), c);
    }
  }

  // ----- what each child contributes -----

  // c and everything below it that can be reached.
  ghost function ReachableFrom(project: Project, c: Path): (s: set<Path>)
    requires [] in project
    ensures forall p {:trigger p in s} :: p in s <==> p in project && AtOrUnder(p, c) && Reachable(project, p)
  {
    set p | p in project && AtOrUnder(p, c) && Reachable(project, p)
  }

  lemma NothingReachable(project: Project, c: Path, p: Path)
    requires [] in project && AtOrUnder(p, c) && !Reachable(project, c)
    ensures !Reachable(project, p)
  {
    if Reachable(project, p) { ReachedThrough(project, p, c); }
  }

  // A child that the walk passes over contributes nothing.
  lemma SkippedChild(project: Project, policy: Policy, d: Path, c: Path)
    requires IsProject(project) && IsPolicyOf(policy, project) && Under(c, d)
    requires c == [POLICY_FILE] || !Reachable(project, c)
    ensures From(CapturedBelow(project, policy, d), c) == {} && From(ExcludedBelow(project, policy, d), c) == {}
  {
    forall p | p in project && AtOrUnder(p, c) && p != [POLICY_FILE]
      ensures !Captured(project, policy, p) && !Reachable(project, p) {
      if c == [POLICY_FILE] {
        if p != c { ChildBelowDirectory(project, p, c); }
      } else {
        NothingReachable(project, c, p);
        if Captured(project, policy, p) { CapturedThrough(project, policy, p, c); }
      }
    }
  }

  // An excluded child contributes all that can be reached through it, as excluded.
  lemma ExcludedChild(project: Project, policy: Policy, d: Path, c: Path)
    requires IsProject(project) && IsPolicyOf(policy, project) && Under(c, d) && c != [POLICY_FILE]
    requires !Captured(project, policy, c)
    ensures From(CapturedBelow(project, policy, d), c) == {}
    ensures From(ExcludedBelow(project, policy, d), c) == ReachableFrom(project, c)
  {
    forall p | p in project && AtOrUnder(p, c)
      ensures p != [POLICY_FILE] && !Captured(project, policy, p) && Under(p, d) {
      if Captured(project, policy, p) { CapturedThrough(project, policy, p, c); }
      UnderTransitive(p, c, d);
    }
  }

  // A captured child contributes itself, as captured, and what lies below it.
  lemma CapturedChild(project: Project, policy: Policy, d: Path, c: Path)
    requires IsProject(project) && IsPolicyOf(policy, project) && Under(c, d) && c != [POLICY_FILE]
    requires c in project && Captured(project, policy, c)
    ensures From(CapturedBelow(project, policy, d), c) == {c} + CapturedBelow(project, policy, c)
    ensures From(ExcludedBelow(project, policy, d), c) == ExcludedBelow(project, policy, c)
    ensures !project[c].kind.Directory? ==>
      CapturedBelow(project, policy, c) == {} && ExcludedBelow(project, policy, c) == {}
  {
    forall p | p in project && AtOrUnder(p, c)
      ensures Under(p, d) && (p == c || (Under(p, c) && project[c].kind.Directory?)) {
      UnderTransitive(p, c, d);
      if p != c { ChildBelowDirectory(project, p, c); }
    }
  }

  ghost function Count(s: set<Path>): nat { |s| }

  lemma CountUnion(project: Project, a: set<Path>, b: set<Path>)
    requires a !! b
    ensures Count(a + b) == Count(a) + Count(b) && Total(project, a + b) == Total(project, a) + Total(project, b)
  {
    TotalUnion(project, a, b);
  }

  // The next child's share comes on top.
  lemma ShareNext(project: Project, s: set<Path>, d: Path, done: set<Name>, n: Name)
    requires n !in done
    ensures var t, u, v := Through(s, d, done), Through(s, d, done + {n}), From(s, Child(d, n));
            u == t + v && t !! v && Count(u) == Count(t) + Count(v)
              && Total(project, u) == Total(project, t) + Total(project, v)
  {
    ThroughNext(s, d, done, n);
    CountUnion(project, Through(s, d, done), From(s, Child(d, n)));
  }

  lemma ThroughEnds(project: Project, s: set<Path>, d: Path, names: seq<Name>)
    requires IsProject(project) && forall p | p in s :: p in project && Under(p, d)
    requires Lists(project, d, names)
    ensures Through(s, d, Seen(names, 0)) == {} && Through(s, d, Seen(names, |names|)) == s
  {
    forall p | p in s ensures p[|d|] in Seen(names, |names|) {
      var c := p[..|d| + 1];
      assert c == Child(d, p[|d|]);
      if p != c { ChildBelowDirectory(project, p, c); }
    }
  }

  // ----- the walk -----

  ghost function Copies(project: Project, s: set<Path>): map<Path, Entry> {
    map p | p in s && p in project :: project[p]
  }

  lemma CopiesUnion(project: Project, m: map<Path, Entry>, a: set<Path>, b: set<Path>)
    ensures m + Copies(project, a) + Copies(project, b) == m + Copies(project, a + b)
  {
  }

  // Below c, what can be reached is what can be reached from its children.
  lemma ReachableBelow(project: Project, c: Path, names: seq<Name>)
    requires IsProject(project) && c in project && c != [] && Reachable(project, c) && Lists(project, c, names)
    ensures var rest := ReachableFrom(project, c) - {c};
            && Through(rest, c, Seen(names, 0)) == {} && Through(rest, c, Seen(names, |names|)) == rest
            && Count({}) == 0 && Total(project, {}) == 0
  {
    var rest := ReachableFrom(project, c) - {c};
    forall p | p in rest ensures Under(p, c) { assert AtOrUnder(p, c) && p != c; }
    ThroughEnds(project, rest, c, names);
  }

  lemma ReachableChild(project: Project, c: Path, n: Name)
    requires [] in project
    ensures From(ReachableFrom(project, c) - {c}, Child(c, n)) == ReachableFrom(project, Child(c, n))
  {
    forall p | AtOrUnder(p, Child(c, n)) ensures AtOrUnder(p, c) && p != c { UnderTransitive(p, Child(c, n), c); }
  }

  class CaptureWalk {
    const project: Project
    const policy: Policy
    const dry: bool
    var base: map<Path, Entry>
    var entryCount: nat
    var bytes: nat
    var excludedEntryCount: nat
    var excludedBytes: nat

    constructor (project: Project, policy: Policy, dry: bool)
      ensures this.project == project && this.policy == policy && this.dry == dry
      ensures base == map[] && entryCount == 0 && bytes == 0 && excludedEntryCount == 0 && excludedBytes == 0
    {
      this.project, this.policy, this.dry := project, policy, dry;
      base, entryCount, bytes, excludedEntryCount, excludedBytes := map[], 0, 0, 0, 0;
    }

    ghost predicate Ready() { [] in project && IsProject(project) && IsPolicyOf(policy, project) }

    twostate predicate CountsExcluded(s: set<Path>)
      reads this
    {
      excludedEntryCount == old(excludedEntryCount) + Count(s)
        && excludedBytes == old(excludedBytes) + Total(project, s)
    }

    twostate predicate CountsCaptured(s: set<Path>)
      reads this
    {
      && entryCount == old(entryCount) + Count(s) && bytes == old(bytes) + Total(project, s)
      && base == if dry then old(base) else old(base) + Copies(project, s)
    }

    /** Exactly what can be reached from c is counted as excluded. */
    method CountExcludedTree(c: Path)
      requires Ready() && c in project && c != [] && Reachable(project, c)
      modifies this`excludedEntryCount, this`excludedBytes
      ensures CountsExcluded(ReachableFrom(project, c))
      decreases |Below(project, c)|, 2
    {
      ghost var all := ReachableFrom(project, c);
      assert all == all - {c} + {c};
      TotalAdd(project, all - {c}, c);
      hide ReachableFrom, Total, Below, Reachable, Ready;
      excludedEntryCount := excludedEntryCount + 1;
      if project[c].kind.Regular? { excludedBytes := excludedBytes + project[c].size; }
      CountExcludedEntries(c);
    }

    method CountExcludedEntries(c: Path)
      requires Ready() && c in project && c != [] && Reachable(project, c)
      modifies this`excludedEntryCount, this`excludedBytes
      ensures CountsExcluded(ReachableFrom(project, c) - {c})
      decreases |Below(project, c)|, 1
    {
      var names := ReadDirectory(project, c);
      ReachableBelow(project, c, names);
      hide ReachableFrom, Through, Seen, Total, Below, Reachable, IsProject, Lists;
      for i := 0 to |names|
        invariant CountsExcluded(Through(ReachableFrom(project, c) - {c}, c, Seen(names, i)))
      {
        CountNext(c, names, i);
      }
    }

    method CountNext(c: Path, names: seq<Name>, i: nat)
      requires Ready() && c in project && c != [] && Reachable(project, c) && Lists(project, c, names) && i < |names|
      modifies this`excludedEntryCount, this`excludedBytes
      ensures var t, u := Through(ReachableFrom(project, c) - {c}, c, Seen(names, i)),
        Through(ReachableFrom(project, c) - {c}, c, Seen(names, i + 1));
              && excludedEntryCount == old(excludedEntryCount) + Count(u) - Count(t)
              && excludedBytes == old(excludedBytes) + Total(project, u) - Total(project, t)
      decreases |Below(project, c)|, 0, 1
    {
      hide Count, ReachableFrom, Through, Seen, Total, Below, Reachable, Lists, From;
      SeenNext(project, c, names, i);
      ReachableChild(project, c, names[i]);
      ShareNext(project, ReachableFrom(project, c) - {c}, c, Seen(names, i), names[i]);
      CountExcludedEntry(c, names[i]);
    }

    // One entry of an excluded directory.
    method CountExcludedEntry(c: Path, n: Name)
      requires Ready() && c in project && c != [] && Reachable(project, c) && Child(c, n) in project
      modifies this`excludedEntryCount, this`excludedBytes
      ensures CountsExcluded(ReachableFrom(project, Child(c, n)))
      decreases |Below(project, c)|, 0, 0
    {
      var child := Child(c, n);
      if project[child].device == project[[]].device && !project[child].kind.Special? {
        assert Parent(child) == c && Metadata(child) == Metadata(c) && Reachable(project, child);
        BelowShrinks(project, child, c);
        CountExcludedTree(child);
      } else {
        forall p | p in project && AtOrUnder(p, child) ensures !Reachable(project, p) {
          NothingReachable(project, child, p);
        }
        assert ReachableFrom(project, child) == {};
      }
    }

    // What the walk makes of the part of CapturedBelow and ExcludedBelow that it accounts for.
    twostate predicate Accounts(captured: set<Path>, excluded: set<Path>)
      reads this
    {
      CountsCaptured(captured) && CountsExcluded(excluded)
    }

    /** Below a captured directory, exactly the captured paths reach the Base state, and the others are counted. */
    method CaptureDirectory(d: Path)
      requires Ready() && d in project && project[d].kind.Directory? && Captured(project, policy, d)
      modifies this`base, this`entryCount, this`bytes, this`excludedEntryCount, this`excludedBytes
      ensures Accounts(CapturedBelow(project, policy, d), ExcludedBelow(project, policy, d))
      decreases |Below(project, d)|, 1
    {
      hide Count, CapturedBelow, ExcludedBelow, Through, Seen, Total, Copies, Below, Captured, Reachable, IsProject,
        IsPolicyOf, Lists;
      var names := ReadDirectory(project, d);
      ThroughEnds(project, CapturedBelow(project, policy, d), d, names);
      ThroughEnds(project, ExcludedBelow(project, policy, d), d, names);
      NothingCopied(project, base);
      for i := 0 to |names|
        invariant Accounts(Through(CapturedBelow(project, policy, d), d, Seen(names, i)),
                           Through(ExcludedBelow(project, policy, d), d, Seen(names, i)))
      {
        CaptureNext(d, names, i, old(base));
      }
    }

    method CaptureNext(d: Path, names: seq<Name>, i: nat, ghost before: map<Path, Entry>)
      requires Ready() && d in project && project[d].kind.Directory? && Captured(project, policy, d)
        && Lists(project, d, names) && i < |names|
      requires base == if dry then before
        else before + Copies(project, Through(CapturedBelow(project, policy, d), d, Seen(names, i)))
      modifies this`base, this`entryCount, this`bytes, this`excludedEntryCount, this`excludedBytes
      ensures var t, u := Through(CapturedBelow(project, policy, d), d, Seen(names, i)),
        Through(CapturedBelow(project, policy, d), d, Seen(names, i + 1));
              && entryCount == old(entryCount) + Count(u) - Count(t)
              && bytes == old(bytes) + Total(project, u) - Total(project, t)
              && base == if dry then before else before + Copies(project, u)
      ensures var t, u := Through(ExcludedBelow(project, policy, d), d, Seen(names, i)),
        Through(ExcludedBelow(project, policy, d), d, Seen(names, i + 1));
              && excludedEntryCount == old(excludedEntryCount) + Count(u) - Count(t)
              && excludedBytes == old(excludedBytes) + Total(project, u) - Total(project, t)
      decreases |Below(project, d)|, 0, 1
    {
      hide Count, CapturedBelow, ExcludedBelow, Through, Seen, Total, Copies, Below, Captured, Lists, From;
      SeenNext(project, d, names, i);
      ShareNext(project, CapturedBelow(project, policy, d), d, Seen(names, i), names[i]);
      ShareNext(project, ExcludedBelow(project, policy, d), d, Seen(names, i), names[i]);
      CopiesUnion(project, before, Through(CapturedBelow(project, policy, d), d, Seen(names, i)),
                  From(CapturedBelow(project, policy, d), Child(d, names[i])));
      CaptureEntry(d, names[i]);
    }

    method CaptureEntry(d: Path, name: Name)
      requires Ready() && d in project && project[d].kind.Directory? && Captured(project, policy, d)
        && Child(d, name) in project
      modifies this`base, this`entryCount, this`bytes, this`excludedEntryCount, this`excludedBytes
      ensures Accounts(From(CapturedBelow(project, policy, d), Child(d, name)),
                       From(ExcludedBelow(project, policy, d), Child(d, name)))
      decreases |Below(project, d)|, 0, 0
    {
      hide CapturedBelow, ExcludedBelow, From, Copies, Below, Captured, Reachable, IsProject, IsPolicyOf, Join,
        Excluded, Total, Count;
      var child := Child(d, name);
      var st := project[child];
      NothingCopied(project, base);
      ChildFacts(project, policy, d, name);
      if d == [] && (name == GIT_DIR || name == TRIBIOS_DIR || name == POLICY_FILE) {
        SkippedChild(project, policy, d, child);
        return;
      }
      if st.device != project[[]].device || st.kind.Special? {
        SkippedChild(project, policy, d, child);
        return;
      }
      var excluded, pattern := Decide(policy, JoinRelative(Join(d), name), st.kind.Directory?);
      if excluded {
        ExcludedChild(project, policy, d, child);
        CountExcludedTree(child);
        return;
      }
      CapturedChild(project, policy, d, child);
      assert {child} + {} == {child};
      KeepEntry(child);
    }

    method KeepEntry(child: Path)
      requires Ready() && child in project && child != []
        && (project[child].kind.Directory? ==> Captured(project, policy, child))
      modifies this`base, this`entryCount, this`bytes, this`excludedEntryCount, this`excludedBytes
      ensures project[child].kind.Directory? ==>
        Accounts({child} + CapturedBelow(project, policy, child), ExcludedBelow(project, policy, child))
      ensures !project[child].kind.Directory? ==> Accounts({child}, {})
      decreases |Below(project, child)|, 3
    {
      hide CapturedBelow, ExcludedBelow, CountsCaptured, CountsExcluded, Below, Captured, IsProject, IsPolicyOf;
      if project[child].kind.Directory? {
        KeepDirectory(child);
      } else {
        KeepLeaf(child);
      }
    }

    method KeepLeaf(child: Path)
      requires Ready() && child in project && child != [] && !project[child].kind.Directory?
      modifies this`base, this`entryCount, this`bytes
      ensures CountsCaptured({child}) && CountsExcluded({})
    {
      hide Copies, Total, Count, IsProject, IsPolicyOf;
      NothingCopied(project, base);
      CopiedOne(project, base, child);
      CountOne(project, child);
      if !dry { base := base[child := project[child]]; }
      if project[child].kind.Regular? { bytes := bytes + project[child].size; }
      entryCount := entryCount + 1;
    }

    method KeepDirectory(child: Path)
      requires Ready() && child in project && child != [] && project[child].kind.Directory?
        && Captured(project, policy, child)
      modifies this`base, this`entryCount, this`bytes, this`excludedEntryCount, this`excludedBytes
      ensures Accounts({child} + CapturedBelow(project, policy, child), ExcludedBelow(project, policy, child))
      decreases |Below(project, child)|, 2
    {
      hide CapturedBelow, ExcludedBelow, Copies, Total, Count, Below, Captured, Reachable, IsProject, IsPolicyOf;
      ghost var below := CapturedBelow(project, policy, child);
      CopiedOne(project, base, child);
      CopiesUnion(project, base, {child}, below);
      CountOne(project, child);
      CountUnion(project, {child}, below);
      if !dry { base := base[child := project[child]]; }
      CaptureDirectory(child);
      entryCount := entryCount + 1;
    }

    /**
      The whole walk: the Base state holds exactly what is captured, and captured and excluded
      accounts add up to everything that could be captured, once each.
     */
    method WalkProject()
      requires Ready() && base == map[] && entryCount == 0 && bytes == 0 && excludedEntryCount == 0
        && excludedBytes == 0
      modifies this
      ensures entryCount + excludedEntryCount == Count(Accountable(project, policy))
      ensures bytes + excludedBytes == Total(project, Accountable(project, policy))
      ensures entryCount == Count(CapturedEntries(project, policy))
        && bytes == Total(project, CapturedEntries(project, policy))
      ensures base == if dry then map[] else Copies(project, CapturedEntries(project, policy))
    {
      hide CapturedBelow, ExcludedBelow, Copies, Count, Total, Below, Captured, Reachable, IsProject, IsPolicyOf;
      AccountsAddUp(project, policy);
      ghost var file := PolicyEntry(policy);
      NothingCopied(project, base);
      RootCaptured(project, policy);
      if policy.present {
        PolicyCopied(project, policy);
        CountOne(project, [POLICY_FILE]);
        CopiedOne(project, base, [POLICY_FILE]);
        if !dry { base := base[[POLICY_FILE] := project[[POLICY_FILE]]]; }
        bytes := bytes + policy.size;
        entryCount := entryCount + 1;
      }
      CopiesUnion(project, map[], file, CapturedBelow(project, policy, []));
      assert map[] + Copies(project, CapturedEntries(project, policy)) ==
        Copies(project, CapturedEntries(project, policy));
      assert CountsCaptured(file);
      CaptureDirectory([]);
    }
  }

  // The policy file is written from what was read of it.
  ghost function PolicyEntry(policy: Policy): set<Path> {
    if policy.present then {[POLICY_FILE]} else {}
  }

  ghost function CapturedEntries(project: Project, policy: Policy): set<Path>
    requires [] in project
  {
    PolicyEntry(policy) + CapturedBelow(project, policy, [])
  }

  // Everything capturable on the Project's device outside .git and .tribios, and the policy file.
  ghost function Accountable(project: Project, policy: Policy): set<Path>
    requires [] in project
  {
    set p | p in project && p != [] && if p == [POLICY_FILE] then policy.present else Reachable(project, p)
  }

  /** The captured entries are the paths for which Captured holds. */
  lemma CapturedEntriesAre(project: Project, policy: Policy, p: Path)
    requires IsProject(project) && IsPolicyOf(policy, project)
    ensures p in CapturedEntries(project, policy) <==> p in project && p != [] && Captured(project, policy, p)
  {
    assert Under(p, []) <==> p != [];
  }

  /** For every path that exists, the walk captures it exactly when the explainer says so. */
  lemma WalkAgreesWithExplainer(project: Project, policy: Policy, p: Path, asDirectory: bool)
    requires IsProject(project) && IsPolicyOf(policy, project) && p in project && p != []
    ensures p in CapturedEntries(project, policy) <==> !ExplainedOut(project, policy, p, asDirectory)
  {
    CapturedEntriesAre(project, policy, p);
    ExplainerAgrees(project, policy, p, asDirectory);
  }

  lemma AccountsAddUp(project: Project, policy: Policy)
    requires IsProject(project) && IsPolicyOf(policy, project)
    ensures var below, file := CapturedBelow(project, policy, []), PolicyEntry(policy);
            && Count(CapturedEntries(project, policy)) == Count(file) + Count(below)
            && Total(project, CapturedEntries(project, policy)) == Total(project, file) + Total(project, below)
            && Count(Accountable(project, policy)) ==
                 Count(file) + Count(below) + Count(ExcludedBelow(project, policy, []))
            && Total(project, Accountable(project, policy)) ==
                 Total(project, file) + Total(project, below) + Total(project, ExcludedBelow(project, policy, []))
  {
    hide Captured, Reachable, Total, Count, CapturedBelow, ExcludedBelow;
    var file, below, left := PolicyEntry(policy), CapturedBelow(project, policy, []),
      ExcludedBelow(project, policy, []);
    CountUnion(project, file, below);
    CountUnion(project, file + below, left);
    forall p | p in below ensures Reachable(project, p) { CapturedThrough(project, policy, p, p); }
    assert Accountable(project, policy) == file + below + left by {
      forall p ensures p in Accountable(project, policy) <==> p in file + below + left {
        assert Under(p, []) <==> p != [];
      }
    }
  }

  lemma RootCaptured(project: Project, policy: Policy)
    requires IsProject(project)
    ensures [] in project && project[[]].kind.Directory? && Captured(project, policy, [])
  {
  }

  lemma PolicyCopied(project: Project, policy: Policy)
    requires IsPolicyOf(policy, project) && policy.present
    ensures [POLICY_FILE] in project && Bytes(project, [POLICY_FILE]) == policy.size
  {
  }

  lemma CountOne(project: Project, c: Path)
    ensures Count({c}) == 1 && Total(project, {c}) == Bytes(project, c)
  {
    TotalAdd(project, {}, c);
    assert {} + {c} == {c};
  }

  lemma CopiedOne(project: Project, m: map<Path, Entry>, c: Path)
    requires c in project
    ensures m + Copies(project, {c}) == m[c := project[c]]
  {
  }

  // What the walk knows of a child of a captured directory.
  lemma ChildFacts(project: Project, policy: Policy, d: Path, name: Name)
    requires IsProject(project) && IsPolicyOf(policy, project)
    requires d in project && project[d].kind.Directory? && Captured(project, policy, d) && Child(d, name) in project
    ensures var child := Child(d, name);
            && JoinRelative(Join(d), name) == Join(child) && |Below(project, child)| < |Below(project, d)|
            && Metadata(child) == (d == [] && (name == GIT_DIR || name == TRIBIOS_DIR))
            && (child == [POLICY_FILE] <==> d == [] && name == POLICY_FILE)
            && Reachable(project, child) == (!Metadata(child) && Capturable(project, child))
            && (child != [POLICY_FILE] ==>
                  Captured(project, policy, child)
                  == (!Metadata(child) && Capturable(project, child)
                      && !Excluded(policy, Join(child), project[child].kind.Directory?)))
  {
    var child := Child(d, name);
    BelowShrinks(project, child, d);
    CapturedThrough(project, policy, d, d);
    assert d != [POLICY_FILE];
    assert Parent(child) == d && Clean(child) && CleanName(child[|d|]);
    assert d != [] ==> !Metadata(d) && d[0] == child[0];
    assert Clean(d) by { assert forall i | 0 <= i < |d| :: child[i] == d[i]; }
    StringsFollowSegments(d, name);
  }

  lemma NothingCopied(project: Project, m: map<Path, Entry>)
    ensures m + Copies(project, {}) == m && Count({}) == 0 && Total(project, {}) == 0
  {
  }
}
