/**
  The durable state of one Workspace, its journal records, and what recovery
  makes of an unsettled record.
 */
module Journal {
  import opened Layers
  import opened OverlayLaws

  datatype Result<+T> = Ok(value: T) | Err(refusal: Refusal)

  datatype Refusal = UnsafePath | StageAndEntryMissing | CannotPublish | CannotRemove | ForeignFailure

  datatype Kind = Create | Mkdir | Symlink | Write | Truncate | Chmod | Utimens | Rename | Unlink | Rmdir
                | WorkspaceCreate | WorkspaceRemove

  // Records of creating and removing a whole Workspace; every other record is of one call.
  predicate Lifecycle(k: Kind) { k.WorkspaceCreate? || k.WorkspaceRemove? }

  datatype Phase = Prepared | Publishing

  datatype Operation = Operation(id: nat, workspace: Name, kind: Kind, path: Path, target: Path, phase: Phase,
                                 addTomb: bool, dropTarget: bool)

  // The upper tree, the staged entries by operation id, and the tombstone rows.
  datatype Files = Files(upper: Layer, stages: map<nat, Layer>, tombs: set<Path>)

  // ... and this Workspace's rows of the journal.
  datatype Disk = Disk(files: Files, journal: seq<Operation>, nextId: nat)

  function Dest(op: Operation): Path {
    if op.kind.Rename? then op.target else op.path
  }

  // ----- tombstone rows -----

  function FoldChar(c: char): char {
    if 'A' <= c <= 'Z' then (c as int + 32) as char else c
  }

  function Fold(s: string): string {
    seq(|s|, i requires 0 <= i < |s| => FoldChar(s[i]))
  }

  // LIKE ignores ASCII case (module LikePattern proves the match is this one).
  predicate FoldedUnder(p: Path, q: Path) {
    |q| < |p| && forall i | 0 <= i < |q| :: Fold(p[i]) == Fold(q[i])
  }

  function DropStored(tombs: set<Path>, target: Path): set<Path> {
    set t | t in tombs && t != target && !FoldedUnder(t, target)
  }

  // No row is below `to` only when case is ignored.
  predicate NoFoldClash(tombs: set<Path>, to: Path) {
    forall t | t in tombs :: FoldedUnder(t, to) ==> Under(t, to)
  }

  function AddedRows(tombs: set<Path>, op: Operation): set<Path> {
    if op.addTomb then tombs + {op.path} else tombs
  }

  // The rows after the final transaction, and the set that the engine keeps in memory.
  function StoredTombs(tombs: set<Path>, op: Operation): set<Path> {
    if op.dropTarget then DropStored(AddedRows(tombs, op), op.target) else AddedRows(tombs, op)
  }

  function MemoryTombs(tombs: set<Path>, op: Operation): set<Path> {
    if op.dropTarget then DropTombs(AddedRows(tombs, op), op.target) else AddedRows(tombs, op)
  }

  /** Two characters fold alike if they are the same, or one is the other's lower-case ASCII letter. */
  lemma FoldsAlike(c: char, d: char)
    ensures FoldChar(c) == FoldChar(d) <==>
      || c == d
      || ('A' <= c <= 'Z' && d as int == c as int + ('a' as int - 'A' as int))
      || ('A' <= d <= 'Z' && c as int == d as int + ('a' as int - 'A' as int))
  {
  }

  /** Stored rows and the in-memory set part ways exactly when a row matches through its case alone. */
  lemma TombsAgree(tombs: set<Path>, op: Operation)
    ensures StoredTombs(tombs, op) == MemoryTombs(tombs, op)
       <==> (op.dropTarget ==> NoFoldClash(AddedRows(tombs, op), op.target))
  {
    var rows := AddedRows(tombs, op);
    if op.dropTarget {
      forall t | t in rows && Under(t, op.target) ensures FoldedUnder(t, op.target) {
        assert forall i | 0 <= i < |op.target| :: t[i] == op.target[i];
      }
      if NoFoldClash(rows, op.target) {
        forall t | t in rows ensures t in StoredTombs(tombs, op) <==> t in MemoryTombs(tombs, op) {
          if AtOrUnder(t, op.target) && t != op.target { assert Under(t, op.target); }
        }
        assert StoredTombs(tombs, op) == MemoryTombs(tombs, op);
      } else {
        var t :| t in rows && FoldedUnder(t, op.target) && !Under(t, op.target);
        assert t !in StoredTombs(tombs, op) && t in MemoryTombs(tombs, op);
      }
    }
  }

  /** Renaming A/x to a: the row that hides A/x is deleted with the transaction that adds it. */
  lemma CaseFoldLosesTombstone()
    ensures var op := Operation(0, "w", Rename, ["A", "x"], ["a"], Publishing, true, true);
            MemoryTombs({}, op) == {["A", "x"]} && StoredTombs({}, op) == {}
  {
    var op := Operation(0, "w", Rename, ["A", "x"], ["a"], Publishing, true, true);
    assert AddedRows({}, op) == {["A", "x"]};
    assert ["A", "x"][0] == "A" && ["a"][0] == "a" && |"A"| == 1;
    assert Fold("A") == Fold("a");
    assert FoldedUnder(["A", "x"], ["a"]);
    assert !AtOrUnder(["A", "x"], ["a"]) by { assert "A"[0] != "a"[0]; }
    assert MemoryTombs({}, op) == {["A", "x"]};
  }

  // ----- the file-system calls of publication -----

  // rename(2) of a staged entry onto dest.
  function RenameStatus(upper: Layer, dest: Path, stageIsDir: bool): Option<Errno> {
    if dest != [] && Parent(dest) !in upper then Some(ENOENT)
    else if dest != [] && !upper[Parent(dest)].node.Dir? then Some(ENOTDIR)
    else if dest !in upper then None
    else if upper[dest].node.Dir? && !stageIsDir then Some(EISDIR)
    else if upper[dest].node.Dir? && HasChild(upper, dest) then Some(ENOTEMPTY)
    else if !upper[dest].node.Dir? && stageIsDir then Some(ENOTDIR)
    else None
  }

  // create_directories; recovery runs it before it publishes.
  function MakeDirs(upper: Layer, p: Path, mode: Mode): Option<Layer>
    decreases |p|
  {
    match if p == [] then Some(upper) else MakeDirs(upper, Parent(p), mode)
    case None => None
    case Some(u) =>
      if p !in u then Some(u[p := Inode(0, Dir(mode))])
      else if u[p].node.Dir? then Some(u) else None
  }

  /** Directories are made where nothing is, down to p, unless something else is in the way. */
  lemma {:induction false} MakeDirsMakes(u: Layer, p: Path, mode: Mode)
    ensures MakeDirs(u, p, mode).Some? <==> forall q {:trigger u[q]} | q in u && AtOrUnder(p, q) :: u[q].node.Dir?
    ensures MakeDirs(u, p, mode).Some? ==>
      && (forall q {:trigger q in MakeDirs(u, p, mode).value} ::
            q in MakeDirs(u, p, mode).value <==> q in u || AtOrUnder(p, q))
      && (forall q {:trigger MakeDirs(u, p, mode).value[q]} | q in MakeDirs(u, p, mode).value ::
            MakeDirs(u, p, mode).value[q] == if q in u then u[q] else Inode(0, Dir(mode)))
    decreases |p|
  {
    forall q ensures AtOrUnder(p, q) <==> q == p || (p != [] && AtOrUnder(Parent(p), q)) {}
    if p != [] { MakeDirsMakes(u, Parent(p), mode); }
  }

  // lstat of the stage.
  predicate StageExists(f: Files, op: Operation) {
    op.id in f.stages && [] in f.stages[op.id]
  }

  function PublishStaged(f: Files, op: Operation, mode: Mode): Result<Files> {
    var dest := Dest(op);
    if StageExists(f, op) then
      match if dest == [] then Some(f.upper) else MakeDirs(f.upper, Parent(dest), mode)
      case None => Err(CannotPublish)
      case Some(u) =>
        if RenameStatus(u, dest, f.stages[op.id][[]].node.Dir?).Some? then Err(CannotPublish)
        else Ok(f.(upper := Graft(u, dest, f.stages[op.id]), stages := f.stages - {op.id}))
    else if dest in f.upper then Ok(f)
    else Err(StageAndEntryMissing)
  }

  // ----- settling a record -----

  function ApplyPublished(f: Files, op: Operation, mode: Mode): Result<Files> {
    match op.kind
    case Unlink =>
      if HasChild(f.upper, op.path) then Err(CannotRemove) else Ok(f.(upper := f.upper - {op.path}))
    case Rmdir => Ok(f.(upper := Prune(f.upper, op.path)))
    case _ =>
      match PublishStaged(f, op, mode)
      case Err(e) => Err(e)
      case Ok(f') => Ok(if op.kind.Rename? then f'.(upper := Prune(f'.upper, op.path)) else f')
  }

  // One turn of the recovery loop for a file-system record.
  function SettleOp(f: Files, op: Operation, mode: Mode): Result<Files> {
    if op.path == [] then Err(UnsafePath)
    else if op.phase.Prepared? then Ok(f.(stages := f.stages - {op.id}))
    else match ApplyPublished(f, op, mode)
      case Err(e) => Err(e)
      case Ok(f') => Ok(f'.(tombs := StoredTombs(f'.tombs, op)))
  }

  /** A removal that was committed is finished by recovery, but an unlink only of what has nothing below it. */
  lemma RemovalSettles(f: Files, op: Operation, mode: Mode)
    requires op.path != [] && op.phase.Publishing? && (op.kind.Unlink? || op.kind.Rmdir?) && !op.dropTarget
    ensures SettleOp(f, op, mode).Err? <==> op.kind.Unlink? && exists q :: q in f.upper && Under(q, op.path)
    ensures SettleOp(f, op, mode).Ok? ==>
      var g := SettleOp(f, op, mode).value;
      && (forall q {:trigger q in g.upper} :: q in g.upper <==> q in f.upper && !AtOrUnder(q, op.path))
      && (forall q {:trigger g.upper[q]} | q in g.upper :: g.upper[q] == f.upper[q])
      && g.tombs == (if op.addTomb then f.tombs + {op.path} else f.tombs) && g.stages == f.stages
  {
    if op.kind.Unlink? && !HasChild(f.upper, op.path) {
      forall q | q in f.upper && AtOrUnder(q, op.path) ensures q == op.path {
        if q != op.path { assert Under(q, op.path); }
      }
    }
  }

  function SettleAll(f: Files, journal: seq<Operation>, mode: Mode): Result<Files>
    decreases |journal|
  {
    if journal == [] then Ok(f)
    else match SettleOp(f, journal[0], mode)
      case Err(e) => Err(e)
      case Ok(f') => SettleAll(f', journal[1..], mode)
  }

  function Recover(d: Disk, mode: Mode): Result<Disk> {
    match SettleAll(d.files, d.journal, mode)
    case Err(e) => Err(e)
    case Ok(f) => Ok(Disk(f.(stages := map[]), [], d.nextId))
  }

  // ----- what recovery makes of each state a mutation passes through -----

  // No row moves an entry beneath itself.
  predicate SoundRow(op: Operation) {
    op.kind.Rename? ==> !AtOrUnder(op.target, op.path)
  }

  function CompleteUpper(upper: Layer, op: Operation, stage: Layer): Layer {
    match op.kind
    case Unlink => Prune(upper, op.path)
    case Rmdir => Prune(upper, op.path)
    case Rename => Prune(Graft(upper, op.target, stage), op.path)
    case _ => Graft(upper, op.path, stage)
  }

  // Every record of d is of a call, and recovering d ends, with all settled, in this upper tree and these tombstones.
  ghost predicate Recovers(d: Disk, upper: Layer, tombs: set<Path>) {
    && (forall i | 0 <= i < |d.journal| :: !Lifecycle(d.journal[i].kind))
    && forall mode: Mode :: Recover(d, mode) == Ok(Disk(Files(upper, map[], tombs), [], d.nextId))
  }

  // ... and in this visible tree.
  ghost predicate RecoversTo(base: Layer, d: Disk, v: Tree) {
    exists upper, tombs :: Recovers(d, upper, tombs) && ShowsSoundly(base, upper, tombs, v)
  }

  ghost predicate ShowsSoundly(base: Layer, upper: Layer, tombs: set<Path>, v: Tree) {
    Overlay(base, upper, tombs).Sound() && Overlay(base, upper, tombs).View() == v
  }

  ghost predicate Committed(d: Disk) {
    exists i | 0 <= i < |d.journal| :: d.journal[i].phase.Publishing?
  }

  lemma RecoverOne(d: Disk, op: Operation, f: Files)
    requires d.journal == [op] && !Lifecycle(op.kind) && forall mode: Mode :: SettleOp(d.files, op, mode) == Ok(f)
    ensures Recovers(d, f.upper, f.tombs)
  {
    forall mode: Mode ensures Recover(d, mode) == Ok(Disk(Files(f.upper, map[], f.tombs), [], d.nextId)) {
      assert SettleOp(d.files, op, mode) == Ok(f);
      assert d.journal[1..] == [];
      assert SettleAll(f, [], mode) == Ok(f);
    }
  }

  lemma RecoverIdle(d: Disk)
    requires d.journal == []
    ensures Recovers(d, d.files.upper, d.files.tombs)
  {
  }

  /** A prepared record rolls back, however much of the stage was built. */
  lemma RecoverPrepared(d: Disk, op: Operation)
    requires d.journal == [op] && op.phase.Prepared? && op.path != [] && !Lifecycle(op.kind)
    ensures Recovers(d, d.files.upper, d.files.tombs) && !Committed(d)
  {
    RecoverOne(d, op, d.files.(stages := d.files.stages - {op.id}));
  }

  lemma MakeDirsNoOp(upper: Layer, p: Path, mode: Mode)
    requires WellFormed(upper) && p in upper && upper[p].node.Dir?
    ensures MakeDirs(upper, p, mode) == Some(upper)
    decreases |p|
  {
    if p != [] {
      assert Under(p, Parent(p));
      MakeDirsNoOp(upper, Parent(p), mode);
    }
  }

  predicate Staged(k: Kind) {
    !k.Unlink? && !k.Rmdir? && !Lifecycle(k)
  }

  /** A publishing record whose stage is still there goes forward. */
  lemma RecoverPublishing(d: Disk, op: Operation)
    requires d.journal == [op] && op.phase.Publishing? && op.path != [] && Dest(op) != [] && Staged(op.kind)
    requires WellFormed(d.files.upper) && op.id in d.files.stages && [] in d.files.stages[op.id]
    requires RenameStatus(d.files.upper, Dest(op), d.files.stages[op.id][[]].node.Dir?) == None
    ensures Recovers(d, CompleteUpper(d.files.upper, op, d.files.stages[op.id]), StoredTombs(d.files.tombs, op))
  {
    forall mode ensures MakeDirs(d.files.upper, Parent(Dest(op)), mode) == Some(d.files.upper) {
      MakeDirsNoOp(d.files.upper, Parent(Dest(op)), mode);
    }
    var upper' := CompleteUpper(d.files.upper, op, d.files.stages[op.id]);
    RecoverOne(d, op, Files(upper', d.files.stages - {op.id}, StoredTombs(d.files.tombs, op)));
  }

  /** ... and one whose stage is already published only finishes, even with the source half removed. */
  lemma RecoverPublished(d: Disk, op: Operation, published: Layer)
    requires d.journal == [op] && op.phase.Publishing? && op.path != [] && Staged(op.kind)
    requires op.id !in d.files.stages && Dest(op) in d.files.upper
    requires if op.kind.Rename? then Prune(d.files.upper, op.path) == Prune(published, op.path)
      else d.files.upper == published
    ensures Recovers(d, if op.kind.Rename? then Prune(published, op.path)
                     else published, StoredTombs(d.files.tombs, op))
  {
    var upper' := if op.kind.Rename? then Prune(published, op.path) else published;
    RecoverOne(d, op, Files(upper', d.files.stages, StoredTombs(d.files.tombs, op)));
  }

  lemma RecoverRemoval(d: Disk, op: Operation, upper: Layer)
    requires d.journal == [op] && op.phase.Publishing? && op.path != [] && (op.kind.Unlink? || op.kind.Rmdir?)
    requires Prune(d.files.upper, op.path) == Prune(upper, op.path)
    requires op.kind.Unlink? ==> !HasChild(d.files.upper, op.path)
    ensures Recovers(d, CompleteUpper(upper, op, map[]), StoredTombs(d.files.tombs, op))
  {
    if op.kind.Unlink? { PruneLeaf(d.files.upper, op.path); }
    RecoverOne(d, op, Files(Prune(upper, op.path), d.files.stages, StoredTombs(d.files.tombs, op)));
  }

  lemma PruneLeaf<T>(m: map<Path, T>, p: Path)
    requires !HasChild(m, p)
    ensures Prune(m, p) == m - {p}
  {
    forall q | q in m ensures AtOrUnder(q, p) <==> q == p {
      assert !Under(q, p);
    }
  }

  // ----- the states a mutation passes through -----

  // Nothing is published yet: no record, or a prepared one.
  ghost predicate Preparing(d: Disk, f: Files) {
    && d.files.upper == f.upper && d.files.tombs == f.tombs
    && (d.journal == [] || (|d.journal| == 1 && d.journal[0].phase.Prepared? && d.journal[0].path != []
                            && !Lifecycle(d.journal[0].kind)))
  }

  // The publishing phase is committed: the stage waits, or it is published and the source of a
  // rename may be half removed, or everything is done.
  ghost predicate GoingForward(d: Disk, f: Files, op: Operation, stage: Layer) {
    if d.journal == [] then
      d.files.upper == CompleteUpper(f.upper, op, stage) && d.files.tombs == StoredTombs(f.tombs, op)
    else
      |d.journal| == 1 && PartlyPublished(d, d.journal[0], f, op, stage)
  }

  ghost predicate PartlyPublished(d: Disk, o: Operation, f: Files, op: Operation, stage: Layer) {
    && o == op.(id := o.id, phase := Publishing) && d.files.tombs == f.tombs
    && if !Staged(op.kind) then
         Prune(d.files.upper, op.path) == Prune(f.upper, op.path)
           && (op.kind.Unlink? ==> !HasChild(d.files.upper, op.path))
       else if o.id in d.files.stages then
         d.files.upper == f.upper && d.files.stages[o.id] == stage
       else
         && Dest(op) in d.files.upper
         && (if op.kind.Rename? then Prune(d.files.upper, op.path) == Prune(Graft(f.upper, op.target, stage), op.path)
             else d.files.upper == Graft(f.upper, op.path, stage))
  }

  ghost predicate CanGoForward(f: Files, op: Operation, stage: Layer) {
    && op.path != [] && Dest(op) != [] && WellFormed(f.upper)
    && (Staged(op.kind) || op.kind.Unlink? || op.kind.Rmdir?)
    && (Staged(op.kind) ==> [] in stage && RenameStatus(f.upper, Dest(op), stage[[]].node.Dir?) == None)
  }

  /** A crash while preparing loses nothing and adds nothing. */
  lemma PreparingRollsBack(d: Disk, f: Files)
    requires Preparing(d, f)
    ensures Recovers(d, f.upper, f.tombs) && !Committed(d)
  {
    if d.journal == [] {
      RecoverIdle(d);
    } else {
      assert d.journal == [d.journal[0]];
      RecoverPrepared(d, d.journal[0]);
    }
  }

  /** A crash after the publishing commit completes the operation, wherever it struck. */
  lemma ForwardCompletes(d: Disk, f: Files, op: Operation, stage: Layer)
    requires GoingForward(d, f, op, stage) && CanGoForward(f, op, stage)
    ensures Recovers(d, CompleteUpper(f.upper, op, stage), StoredTombs(f.tombs, op))
    ensures d.journal != [] ==> Committed(d)
  {
    if d.journal == [] {
      RecoverIdle(d);
    } else {
      var o := d.journal[0];
      assert d.journal == [o];
      assert Committed(d) by { assert d.journal[0].phase.Publishing?; }
      if !Staged(op.kind) {
        RecoverRemoval(d, o, f.upper);
      } else if o.id in d.files.stages {
        RecoverPublishing(d, o);
      } else {
        RecoverPublished(d, o, Graft(f.upper, Dest(op), stage));
      }
    }
  }
}
