/**
  The reference: each Workspace operation as it would act on one plain directory
  tree.  Every error is decided in the order in which the engine decides it.
 */
module PlainTree {
  import opened Layers

  datatype Outcome = Done(tree: Tree) | Failed(errno: Errno)

  datatype Edit = SetMode(mode: Mode) | SetTimes | Resize(size: nat) | WriteAt(offset: nat, bytes: seq<Byte>)

  function Zeros(n: nat): (z: seq<Byte>)
    ensures |z| == n
  {
    seq(n, _ => 0)
  }

  function Resized(data: seq<Byte>, size: nat): seq<Byte> {
    if size <= |data| then data[..size] else data + Zeros(size - |data|)
  }

  // pwrite: a gap before the offset reads as zeros, and writing no bytes changes nothing.
  function Overwritten(data: seq<Byte>, offset: nat, bytes: seq<Byte>): seq<Byte> {
    if bytes == [] then data
    else
      var padded := if offset <= |data| then data else Resized(data, offset);
      padded[..offset] + bytes + (if offset + |bytes| <= |padded| then padded[offset + |bytes|..] else [])
  }

  // What an edit does to one entry.  An edit of a symlink acts on whatever the
  // link names, outside these trees: `through` is how that call ends.
  function EditNode(n: Node, e: Edit, through: Option<Errno>): (Option<Errno>, Node) {
    match n
    case Link(_) => (through, n)
    case Dir(_) =>
      (match e
       case SetMode(m) => (None, Dir(m))
       case SetTimes => (None, n)
       case Resize(_) => (Some(EISDIR), n)
       case WriteAt(_, _) => (Some(EISDIR), n))
    case File(m0, data) =>
      (None,
       match e
       case SetMode(m) => File(m, data)
       case SetTimes => n
       case Resize(size) => File(m0, Resized(data, size))
       case WriteAt(offset, bytes) => File(m0, Overwritten(data, offset, bytes)))
  }

  // The first obstacle met when walking down to p, if any.
  function ParentStatus(v: Tree, p: Path): Option<Errno>
    decreases |p|
  {
    if |p| <= 1 then None
    else match ParentStatus(v, Parent(p))
      case Some(e) => Some(e)
      case None =>
        if Parent(p) !in v then Some(ENOENT)
        else if !v[Parent(p)].Dir? then Some(ENOTDIR)
        else None
  }

  function Create(v: Tree, p: Path, n: Node): Outcome {
    if p == [] || p in v then Failed(EEXIST)
    else match ParentStatus(v, p)
      case Some(e) => Failed(e)
      case None => Done(v[p := n])
  }

  function Unlink(v: Tree, p: Path): Outcome {
    if p == [] then Failed(EISDIR)
    else if p !in v then Failed(ENOENT)
    else if v[p].Dir? then Failed(EISDIR)
    else Done(v - {p})
  }

  function Rmdir(v: Tree, p: Path): Outcome {
    if p == [] then Failed(EBUSY)
    else if p !in v then Failed(ENOENT)
    else if !v[p].Dir? then Failed(ENOTDIR)
    else if HasChild(v, p) then Failed(ENOTEMPTY)
    else Done(v - {p})
  }

  function EditAt(v: Tree, p: Path, e: Edit, through: Option<Errno>): Outcome {
    if p !in v then Failed(ENOENT)
    else
      var (status, n) := EditNode(v[p], e, through);
      if status.Some? then Failed(status.value) else Done(v[p := n])
  }

  // A write through a handle goes by path: it fails if nothing is there any more, or a directory is.
  function WriteHandle(v: Tree, p: Path, offset: nat, bytes: seq<Byte>, through: Option<Errno>): Outcome {
    if p == [] then Failed(EISDIR)
    else if p in v then EditAt(v, p, WriteAt(offset, bytes), through)
    else match ParentStatus(v, p)
      case Some(e) => Failed(e)
      case None => Failed(ENOENT)
  }

  function WriteFile(v: Tree, p: Path, offset: nat, bytes: seq<Byte>, created: Mode, through: Option<Errno>): Outcome {
    if p == [] then Failed(EISDIR)
    else if p in v then EditAt(v, p, WriteAt(offset, bytes), through)
    else match Create(v, p, File(created, []))
      case Failed(e) => Failed(e)
      case Done(v') => EditAt(v', p, WriteAt(offset, bytes), through)
  }

  // What forbids a rename before the parents of `to` are looked at.
  function RenameObstacle(v: Tree, from: Path, to: Path): Option<Errno> {
    if from == [] || to == [] then Some(EBUSY)
    else if from == to then None
    else if Under(to, from) then Some(EINVAL)
    else if from !in v then Some(ENOENT)
    else if to in v && v[from].Dir? && !v[to].Dir? then Some(ENOTDIR)
    else if to in v && !v[from].Dir? && v[to].Dir? then Some(EISDIR)
    else if to in v && v[to].Dir? && HasChild(v, to) then Some(ENOTEMPTY)
    else None
  }

  function Rename(v: Tree, from: Path, to: Path): Outcome {
    match RenameObstacle(v, from, to)
    case Some(e) => Failed(e)
    case None =>
      if from == to then Done(v)
      else match ParentStatus(v, to)
        case Some(e) => Failed(e)
        case None => Done(Moved(v, from, to))
  }

  // The subtree at `from` now hangs at `to`, and nothing is left at `from`.
  function Moved(v: Tree, from: Path, to: Path): Tree {
    Prune(Graft(v, to, Subtree(v, from)), from)
  }

  lemma PresentHasParents(v: Tree, p: Path)
    requires IsTree(v) && p in v
    ensures ParentStatus(v, p) == None
  {
    if |p| > 1 {
      assert Under(p, Parent(p));
      PresentHasParents(v, Parent(p));
    }
  }

  /** No obstacle above p means that p's parent is a directory. */
  lemma ClearParents(v: Tree, p: Path)
    requires IsTree(v) && p != [] && ParentStatus(v, p) == None
    ensures Parent(p) in v && v[Parent(p)].Dir?
  {
    if |p| == 1 { assert Parent(p) == []; }
  }

  /** The reference operations map trees to trees. */
  lemma InsertKeepsTree(v: Tree, p: Path, n: Node)
    requires IsTree(v) && Create(v, p, n).Done?
    ensures IsTree(v[p := n])
  {
    ClearParents(v, p);
    var w := v[p := n];
    forall q, r | q in w && Under(q, r) ensures r in w && w[r].Dir? {
      if q == p {
        if r != Parent(p) { assert Under(Parent(p), r); }
      } else if r == p {
        assert false;
      }
    }
  }

  lemma MovedKeepsTree(v: Tree, from: Path, to: Path)
    requires IsTree(v) && Rename(v, from, to).Done?
    ensures IsTree(Rename(v, from, to).tree)
  {
    if from != to {
      ClearParents(v, to);
      NotNested(v, from, to);
      var w := Moved(v, from, to);
      forall q, r | q in w && Under(q, r) ensures r in w && w[r].Dir? {
        if AtOrUnder(q, to) {
          if AtOrUnder(r, to) {
            assert Under(from + q[|to|..], from + r[|to|..]);
            NestedApart(r, to, from);
          } else {
            UnderChain(q, to, r);
            if r != Parent(to) { assert Under(Parent(to), r); }
          }
        } else if AtOrUnder(r, to) {
          UnderTransitive(q, r, to);
        }
      }
      assert [] in w;
    }
  }

  lemma NotNested(v: Tree, from: Path, to: Path)
    requires IsTree(v) && Rename(v, from, to).Done? && from != to
    ensures !AtOrUnder(to, from) && !AtOrUnder(from, to)
  {
    if AtOrUnder(from, to) { assert Under(from, to); }
  }

  lemma NestedApart(r: Path, to: Path, from: Path)
    requires AtOrUnder(r, to) && !AtOrUnder(to, from) && !AtOrUnder(from, to)
    ensures !AtOrUnder(r, from)
  {
    if AtOrUnder(r, from) { UnderChain(r, to, from); }
  }

  // ----- which error is which -----

  /** On the way to p: ENOTDIR if something that is no directory is in the way, and
    else ENOENT if anything is missing. */
  lemma {:induction false} ParentErrors(v: Tree, p: Path)
    requires IsTree(v)
    ensures ParentStatus(v, p) == Some(ENOTDIR) <==> exists a {:trigger v[a]} :: Under(p, a) && a in v && !v[a].Dir?
    ensures ParentStatus(v, p) == Some(ENOENT) <==>
      && !(exists a {:trigger v[a]} :: Under(p, a) && a in v && !v[a].Dir?)
      && exists a {:trigger a in v} :: Under(p, a) && a !in v
    ensures ParentStatus(v, p) == None <==> (p != [] ==> Parent(p) in v && v[Parent(p)].Dir?)
    decreases |p|
  {
    if p != [] {
      var q := Parent(p);
      forall a ensures Under(p, a) <==> a == q || Under(q, a) {}
      if q != [] { ParentErrors(v, q); }
    }
  }

  /** A creation fails with EEXIST exactly if something is there, and otherwise only on the way. */
  lemma CreateErrors(v: Tree, p: Path, n: Node)
    ensures Create(v, p, n) == Failed(EEXIST) <==> p == [] || p in v
    ensures p != [] && p !in v ==>
      (Create(v, p, n).Done? <==> ParentStatus(v, p) == None)
      && (forall e :: Create(v, p, n) == Failed(e) <==> ParentStatus(v, p) == Some(e))
  {
    ParentErrorKinds(v, p);
  }

  lemma {:induction false} ParentErrorKinds(v: Tree, p: Path)
    ensures ParentStatus(v, p) == None || ParentStatus(v, p) == Some(ENOENT) || ParentStatus(v, p) == Some(ENOTDIR)
    decreases |p|
  {
    if |p| > 1 { ParentErrorKinds(v, Parent(p)); }
  }

  /** Files and symlinks are unlinked, empty directories removed; the root is neither. */
  lemma RemovalErrors(v: Tree, p: Path)
    ensures Unlink(v, p).Done? <==> p != [] && p in v && !v[p].Dir?
    ensures Unlink(v, p) == Failed(EISDIR) <==> p == [] || (p in v && v[p].Dir?)
    ensures Unlink(v, p) == Failed(ENOENT) <==> p != [] && p !in v
    ensures Rmdir(v, p).Done? <==> p != [] && p in v && v[p].Dir? && !exists q :: q in v && Under(q, p)
    ensures Rmdir(v, p) == Failed(EBUSY) <==> p == []
    ensures Rmdir(v, p) == Failed(ENOENT) <==> p != [] && p !in v
    ensures Rmdir(v, p) == Failed(ENOTDIR) <==> p != [] && p in v && !v[p].Dir?
    ensures Rmdir(v, p) == Failed(ENOTEMPTY) <==> p != [] && p in v && v[p].Dir? && exists q :: q in v && Under(q, p)
  {
  }

  /** A rename moves an entry that is there to a place whose parent is a directory, over nothing or its like. */
  lemma RenameErrors(v: Tree, from: Path, to: Path)
    requires IsTree(v)
    ensures Rename(v, from, to) == Failed(EBUSY) <==> from == [] || to == []
    ensures Rename(v, from, to) == Failed(EINVAL) <==> from != [] && Under(to, from)
    ensures Rename(v, from, to) == Failed(ENOTEMPTY) <==>
      && from != [] && to != [] && from != to && from in v && to in v && v[from].Dir? && v[to].Dir?
      && !Under(to, from) && exists q :: q in v && Under(q, to)
    ensures Rename(v, from, to) == Failed(EISDIR) <==>
      from != [] && to != [] && !Under(to, from) && from in v && to in v && !v[from].Dir? && v[to].Dir?
    ensures Rename(v, from, to).Done? <==>
      && from != [] && to != []
      && (from == to
          || (&& !Under(to, from) && from in v && Parent(to) in v && v[Parent(to)].Dir?
              && (to in v ==> (v[from].Dir? <==> v[to].Dir?) && !(v[to].Dir? && exists q :: q in v && Under(q, to)))))
  {
    ParentErrors(v, to);
    ParentErrorKinds(v, to);
    if to != [] && to in v { assert Under(to, Parent(to)); }
  }
}
