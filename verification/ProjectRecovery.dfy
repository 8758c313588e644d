/**
  Recovery of a whole Project: one pass over the journal, which may itself be
  interrupted anywhere and started again.
 */
module ProjectRecovery {
  import opened Layers
  import opened OverlayLaws
  import opened Journal

  datatype RecordState = Creating | Active | Removed | Reclaimed

  // What recovery reads and writes.  The Base state is not part of it.
  datatype Project = Project(files: map<Name, Files>, records: map<Name, RecordState>, journal: seq<Operation>) {

    function At(w: Name): Files {
      if w in files then files[w] else NoFiles()
    }

    function Put(w: Name, f: Files): Project {
      this.(files := files[w := f])
    }

    // The row at the head is deleted.
    function Dropped(): Project
      requires journal != []
    {
      this.(journal := journal[1..])
    }

    function Reclaim(w: Name): Project {
      if w in records then this.(records := records[w := Reclaimed]) else this
    }
  }

  function NoFiles(): Files { Files(map[], map[], {}) }

  // The record at the head is settled; Git's part of a lifecycle record succeeds.
  function SettleHead(p: Project, mode: Mode): Result<Project>
    requires p.journal != []
  {
    var op := p.journal[0];
    var w := op.workspace;
    if op.kind.WorkspaceCreate? then
      if w in p.records && p.records[w].Active? then Ok(p.Dropped())
      else Ok(p.Put(w, NoFiles().(tombs := p.At(w).tombs)).Reclaim(w).Dropped())
    else if op.kind.WorkspaceRemove? then
      if w !in p.records || p.records[w].Active? then Ok(p.Dropped())
      else Ok(p.Put(w, NoFiles()).Reclaim(w).Dropped())
    else
      match SettleOp(p.At(w), op, mode)
      case Err(e) => Err(e)
      case Ok(f) => Ok(p.Put(w, f).Dropped())
  }

  function CleanedUp(p: Project): Project {
    p.(files := map w | w in p.files :: p.files[w].(stages := map[]))
  }

  function RecoverAll(p: Project, mode: Mode): Result<Project>
    decreases |p.journal|
  {
    if p.journal == [] then Ok(CleanedUp(p))
    else match SettleHead(p, mode)
      case Err(e) => Err(e)
      case Ok(q) => RecoverAll(q, mode)
  }

  // ----- one durable step of a recovery that may stop at any moment -----

  ghost predicate StagesShrunk(a: map<nat, Layer>, b: map<nat, Layer>, id: nat) {
    a - {id} == b - {id} && (id in b ==> id in a && Shrunk(a[id], b[id]))
  }

  // Steps inside the record at the head, on the files of its Workspace.
  ghost predicate InsideStep(f: Files, g: Files, op: Operation, mode: Mode) {
    if op.path == [] then false
    else if op.phase.Prepared? then
      // remove_all of the stage
      g == f.(stages := g.stages) && StagesShrunk(f.stages, g.stages, op.id)
    else match op.kind
      case Unlink => op.path in f.upper && !HasChild(f.upper, op.path) && g == f.(upper := f.upper - {op.path})
      case Rmdir => SourceStep(f, g, op.path)
      case _ =>
        if StageExists(f, op) then
          // create_directories down to some parent, or the publishing rename
          || (exists a ::
                Under(Dest(op), a) && MakeDirs(f.upper, a, mode) == Some(g.upper) && g == f.(upper := g.upper))
          || PublishStaged(f, op, mode) == Ok(g)
        else
          Dest(op) in f.upper && op.kind.Rename? && SourceStep(f, g, op.path)
  }

  // remove_all below an upper path, entry by entry.
  ghost predicate SourceStep(f: Files, g: Files, p: Path) {
    exists q :: q in f.upper && AtOrUnder(q, p) && !HasChild(f.upper, q) && g == f.(upper := f.upper - {q})
  }

  ghost predicate RecoveryStep(p: Project, q: Project, mode: Mode) {
    if p.journal == [] then
      // leftover stages of settled records
      && q == p.(files := q.files) && q.files.Keys == p.files.Keys
      && forall w {:trigger q.files[w]} | w in p.files :: q.files[w] == p.files[w].(stages := q.files[w].stages)
    else
      var op, w := p.journal[0], p.journal[0].workspace;
      || Ok(q) == SettleHead(p, mode)
      || (if Lifecycle(op.kind) then LifecycleStep(p, q, op, w)
          else q == p.Put(w, q.At(w)) && InsideStep(p.At(w), q.At(w), op, mode))
  }

  // Entries of the Workspace directory go one by one; a removal also clears the tombstones
  // and sets the record before the row is deleted.
  ghost predicate LifecycleStep(p: Project, q: Project, op: Operation, w: Name) {
    && !(w in p.records && p.records[w].Active?) && (op.kind.WorkspaceRemove? ==> w in p.records)
    && q.journal == p.journal && q.files.Keys == p.files.Keys + {w}
    && (forall x {:trigger q.files[x]} | x in p.files && x != w :: q.files[x] == p.files[x])
    && Shrunk(p.At(w).upper, q.At(w).upper)
    && (q.At(w).tombs == p.At(w).tombs || (op.kind.WorkspaceRemove? && q.At(w).tombs == {} && q.At(w).upper == map[]))
    && (q.records == p.records
        || (q.records == p.Reclaim(w).records && q.At(w).upper == map[]
            && (op.kind.WorkspaceRemove? ==> q.At(w).tombs == {})))
  }

  ghost predicate SoundRows(journal: seq<Operation>) {
    forall i | 0 <= i < |journal| :: SoundRow(journal[i])
  }

  // ----- re-entrancy -----

  lemma SourceIsStep(p: Project, op: Operation, leaf: Path, mode: Mode)
    requires p.journal != [] && p.journal[0] == op && op.path != [] && op.phase.Publishing?
    requires var f := p.At(op.workspace);
             && (op.kind.Rmdir? || (op.kind.Rename? && !StageExists(f, op) && op.target in f.upper))
             && leaf in f.upper && AtOrUnder(leaf, op.path) && !HasChild(f.upper, leaf)
    ensures var f := p.At(op.workspace); RecoveryStep(p, p.Put(op.workspace, f.(upper := f.upper - {leaf})), mode)
  {
    var f := p.At(op.workspace);
    assert SourceStep(f, f.(upper := f.upper - {leaf}), op.path);
  }

  // The single steps of settling a lifecycle record.
  ghost predicate Undone(p: Project, op: Operation) {
    && p.journal != [] && p.journal[0] == op && Lifecycle(op.kind)
    && !(op.workspace in p.records && p.records[op.workspace].Active?)
    && (op.kind.WorkspaceRemove? ==> op.workspace in p.records)
  }

  lemma EntryStep(p: Project, op: Operation, f: Files, mode: Mode)
    requires Undone(p, op) && Shrunk(p.At(op.workspace).upper, f.upper) && f.tombs == p.At(op.workspace).tombs
    ensures RecoveryStep(p, p.Put(op.workspace, f), mode)
  {
    assert LifecycleStep(p, p.Put(op.workspace, f), op, op.workspace);
  }

  lemma TombsStep(p: Project, op: Operation, mode: Mode)
    requires Undone(p, op) && op.kind.WorkspaceRemove? && p.At(op.workspace).upper == map[]
    ensures RecoveryStep(p, p.Put(op.workspace, NoFiles()), mode)
  {
    assert LifecycleStep(p, p.Put(op.workspace, NoFiles()), op, op.workspace);
  }

  lemma RecordStep(p: Project, op: Operation, mode: Mode)
    requires Undone(p, op) && p.At(op.workspace).upper == map[]
      && (op.kind.WorkspaceRemove? ==> p.At(op.workspace).tombs == {})
    ensures RecoveryStep(p, p.Put(op.workspace, p.At(op.workspace)).Reclaim(op.workspace), mode)
  {
    var w := op.workspace;
    assert LifecycleStep(p, p.Put(w, p.At(w)).Reclaim(w), op, w);
  }

  lemma MakeDirsIdempotent(u: Layer, p: Path, mode: Mode)
    requires MakeDirs(u, p, mode).Some?
    ensures var v := MakeDirs(u, p, mode).value;
            && MakeDirs(v, p, mode) == Some(v)
            && p in v && v[p].node.Dir?
            && forall q | q in u :: q in v && v[q] == u[q]
    decreases |p|
  {
    if p != [] {
      var u' := MakeDirs(u, Parent(p), mode).value;
      MakeDirsIdempotent(u, Parent(p), mode);
      var v := MakeDirs(u, p, mode).value;
      MakeDirsThrough(u', v, Parent(p), mode);
    }
  }

  // Directories already present stay as they are.
  lemma MakeDirsThrough(u: Layer, v: Layer, p: Path, mode: Mode)
    requires MakeDirs(u, p, mode) == Some(u) && forall q | q in u :: q in v && v[q] == u[q]
    ensures MakeDirs(v, p, mode) == Some(v)
    decreases |p|
  {
    if p != [] {
      MakeDirsExact(u, p, mode);
      MakeDirsThrough(u, v, Parent(p), mode);
    }
  }

  lemma MakeDirsGrows(u: Layer, p: Path, mode: Mode)
    requires MakeDirs(u, p, mode).Some?
    ensures forall q | q in u :: q in MakeDirs(u, p, mode).value && MakeDirs(u, p, mode).value[q] == u[q]
    decreases |p|
  {
    if p != [] { MakeDirsGrows(u, Parent(p), mode); }
  }

  lemma MakeDirsExact(u: Layer, p: Path, mode: Mode)
    requires p != [] && MakeDirs(u, p, mode) == Some(u)
    ensures MakeDirs(u, Parent(p), mode) == Some(u)
  {
    MakeDirsGrows(u, Parent(p), mode);
  }

  // Directories made on the way are found in place.
  lemma MakeDirsOnTheWay(u: Layer, v: Layer, a: Path, p: Path, mode: Mode)
    requires AtOrUnder(p, a) && MakeDirs(u, a, mode) == Some(v)
    ensures MakeDirs(v, p, mode) == MakeDirs(u, p, mode)
    decreases |p|
  {
    if p == a {
      MakeDirsIdempotent(u, a, mode);
    } else {
      MakeDirsOnTheWay(u, v, a, Parent(p), mode);
    }
  }

  lemma InsideStepKeeps(f: Files, g: Files, op: Operation, mode: Mode)
    requires InsideStep(f, g, op, mode) && !Lifecycle(op.kind)
    requires op.kind.Rename? ==> !AtOrUnder(op.target, op.path)
    ensures SettleOp(g, op, mode) == SettleOp(f, op, mode)
  {
    if op.phase.Publishing? {
      match op.kind
      case Unlink =>
        assert g.upper - {op.path} == g.upper;
        assert !HasChild(g.upper, op.path);
      case Rmdir => SourceStepKeeps(f, g, op.path);
      case _ =>
        if StageExists(f, op) {
          PublishStepKeeps(f, g, op, mode);
        } else {
          SourceStepKeeps(f, g, op.path);
        }
    }
  }

  lemma SourceStepKeeps(f: Files, g: Files, p: Path)
    requires SourceStep(f, g, p)
    ensures Prune(g.upper, p) == Prune(f.upper, p)
    ensures g == f.(upper := g.upper)
    ensures forall q | q in f.upper && !AtOrUnder(q, p) :: q in g.upper
  {
  }

  lemma PublishStepKeeps(f: Files, g: Files, op: Operation, mode: Mode)
    requires InsideStep(f, g, op, mode) && Staged(op.kind) && op.phase.Publishing? && StageExists(f, op)
    ensures PublishStaged(g, op, mode) == PublishStaged(f, op, mode)
  {
    var dest := Dest(op);
    if PublishStaged(f, op, mode) == Ok(g) {
      var u := if dest == [] then f.upper else MakeDirs(f.upper, Parent(dest), mode).value;
      GraftRoot(u, dest, f.stages[op.id]);
    } else {
      var a :| Under(dest, a) && MakeDirs(f.upper, a, mode) == Some(g.upper) && g == f.(upper := g.upper);
      MakeDirsOnTheWay(f.upper, g.upper, a, Parent(dest), mode);
    }
  }

  lemma LifecycleStepKeeps(p: Project, q: Project, op: Operation, w: Name, mode: Mode)
    requires p.journal != [] && p.journal[0] == op && op.workspace == w && Lifecycle(op.kind)
      && LifecycleStep(p, q, op, w)
    ensures SettleHead(q, mode) == SettleHead(p, mode)
  {
    var f := if op.kind.WorkspaceRemove? then NoFiles() else NoFiles().(tombs := p.At(w).tombs);
    assert q.Put(w, f).files == p.Put(w, f).files;
    assert q.Reclaim(w).records == p.Reclaim(w).records;
  }

  /** One step of recovery changes nothing about where recovery ends. */
  lemma StepKeepsOutcome(p: Project, q: Project, mode: Mode)
    requires RecoveryStep(p, q, mode) && SoundRows(p.journal)
    ensures RecoverAll(q, mode) == RecoverAll(p, mode) && SoundRows(q.journal)
  {
    if p.journal == [] {
      assert CleanedUp(q).files == CleanedUp(p).files;
    } else if Ok(q) == SettleHead(p, mode) {
      assert q.journal == p.journal[1..];
    } else {
      var op, w := p.journal[0], p.journal[0].workspace;
      if Lifecycle(op.kind) {
        LifecycleStepKeeps(p, q, op, w, mode);
      } else {
        InsideStepKeeps(p.At(w), q.At(w), op, mode);
        forall f: Files ensures p.Put(w, q.At(w)).Put(w, f) == p.Put(w, f) {
          assert p.files[w := q.At(w)][w := f] == p.files[w := f];
        }
      }
    }
  }

  /**
    Re-entrancy: after any number of interrupted recoveries (each a run of steps that just
    stops), one full run ends exactly where a single uninterrupted run would have ended.
   */
  lemma {:induction false} InterruptionsKeepOutcome(run: seq<Project>, mode: Mode)
    requires run != [] && SoundRows(run[0].journal)
    requires forall i | 0 <= i < |run| - 1 :: RecoveryStep(run[i], run[i + 1], mode)
    ensures RecoverAll(run[|run| - 1], mode) == RecoverAll(run[0], mode)
    decreases |run|
  {
    if |run| > 1 {
      StepKeepsOutcome(run[0], run[1], mode);
      var rest := run[1..];
      forall i | 0 <= i < |rest| - 1 ensures RecoveryStep(rest[i], rest[i + 1], mode) {
        assert rest[i] == run[i + 1] && rest[i + 1] == run[i + 2];
      }
      InterruptionsKeepOutcome(rest, mode);
      assert rest[|rest| - 1] == run[|run| - 1];
    }
  }

  /** A finished recovery has nothing left to do. */
  lemma {:induction false} RecoveredIsFixed(p: Project, mode: Mode)
    requires RecoverAll(p, mode).Ok?
    ensures RecoverAll(p, mode).value.journal == []
      && RecoverAll(RecoverAll(p, mode).value, mode) == RecoverAll(p, mode)
    decreases |p.journal|
  {
    if p.journal == [] {
      var q := CleanedUp(p);
      assert CleanedUp(q).files == q.files;
    } else {
      RecoveredIsFixed(SettleHead(p, mode).value, mode);
    }
  }

  // ----- independence of Workspaces -----

  function RowsOf(journal: seq<Operation>, w: Name): seq<Operation> {
    if journal == [] then []
    else (if journal[0].workspace == w then [journal[0]] else []) + RowsOf(journal[1..], w)
  }

  // The Project as if w were its only Workspace.
  function Only(p: Project, w: Name): Project {
    Project(map x | x in p.files && x == w :: p.files[x], map x | x in p.records && x == w ::
            p.records[x], RowsOf(p.journal, w))
  }

  lemma OnlyPut(p: Project, x: Name, f: Files, w: Name)
    ensures Only(p.Put(x, f), w) == if x == w then Only(p, w).Put(w, f) else Only(p, w)
  {
    assert Only(p.Put(x, f), w).files == (if x == w then Only(p, w).Put(w, f) else Only(p, w)).files;
  }

  lemma OnlyReclaim(p: Project, x: Name, w: Name)
    ensures Only(p.Reclaim(x), w) == if x == w then Only(p, w).Reclaim(w) else Only(p, w)
  {
    assert Only(p.Reclaim(x), w).records == (if x == w then Only(p, w).Reclaim(w) else Only(p, w)).records;
  }

  lemma OnlyDropped(p: Project, w: Name)
    requires p.journal != []
    ensures p.journal[0].workspace == w ==> Only(p, w).journal != [] && Only(p, w).journal[0] == p.journal[0]
    ensures Only(p.Dropped(), w) == if p.journal[0].workspace == w then Only(p, w).Dropped() else Only(p, w)
  {
  }

  // The settled forms of a record for Workspace x.
  lemma OnlySettled(p: Project, x: Name, f: Files, w: Name)
    requires p.journal != [] && p.journal[0].workspace == x
    ensures x != w ==>
      && Only(p.Put(x, f).Dropped(), w) == Only(p, w)
      && Only(p.Put(x, f).Reclaim(x).Dropped(), w) == Only(p, w)
    ensures x == w ==> Only(p, w).journal != []
    ensures x == w ==> Only(p.Put(x, f).Dropped(), w) == Only(p, w).Put(w, f).Dropped()
    ensures x == w ==> Only(p.Put(x, f).Reclaim(x).Dropped(), w) == Only(p, w).Put(w, f).Reclaim(w).Dropped()
  {
    hide Only;
    OnlyPut(p, x, f, w);
    OnlyReclaim(p.Put(x, f), x, w);
    OnlyDropped(p, w);
    OnlyDropped(p.Put(x, f), w);
    OnlyDropped(p.Put(x, f).Reclaim(x), w);
  }

  lemma HeadOfOther(p: Project, w: Name, mode: Mode)
    requires p.journal != [] && p.journal[0].workspace != w && SettleHead(p, mode).Ok?
    ensures Only(SettleHead(p, mode).value, w) == Only(p, w)
  {
    hide SettleOp, Only;
    var x := p.journal[0].workspace;
    OnlySettled(p, x, NoFiles(), w);
    OnlySettled(p, x, NoFiles().(tombs := p.At(x).tombs), w);
    if SettleOp(p.At(x), p.journal[0], mode).Ok? { OnlySettled(p, x, SettleOp(p.At(x), p.journal[0], mode).value, w); }
    OnlyDropped(p, w);
  }

  lemma HeadOfOwn(p: Project, w: Name, mode: Mode)
    requires p.journal != [] && p.journal[0].workspace == w
    ensures Only(p, w).journal != []
    ensures SettleHead(p, mode).Ok? ==> SettleHead(Only(p, w), mode) == Ok(Only(SettleHead(p, mode).value, w))
    ensures SettleHead(p, mode).Err? ==> SettleHead(Only(p, w), mode) == SettleHead(p, mode)
  {
    hide SettleOp, Only, Project.Put, Project.Reclaim, Project.At;
    OnlyAt(p, w);
    OnlyDropped(p, w);
    var op := p.journal[0];
    if op.kind.WorkspaceCreate? {
      OnlySettled(p, w, NoFiles().(tombs := p.At(w).tombs), w);
    } else if op.kind.WorkspaceRemove? {
      OnlySettled(p, w, NoFiles(), w);
    } else if SettleOp(p.At(w), op, mode).Ok? {
      OnlySettled(p, w, SettleOp(p.At(w), op, mode).value, w);
    }
  }

  lemma OnlyAt(p: Project, w: Name)
    ensures Only(p, w).At(w) == p.At(w) && (w in Only(p, w).records <==> w in p.records)
    ensures w in p.records ==> Only(p, w).records[w] == p.records[w]
  {
  }

  /** What recovery makes of one Workspace depends on nothing but that Workspace. */
  lemma {:induction false} Independent(p: Project, w: Name, mode: Mode)
    requires RecoverAll(p, mode).Ok?
    ensures RecoverAll(Only(p, w), mode) == Ok(Only(RecoverAll(p, mode).value, w))
    decreases |p.journal|
  {
    if p.journal == [] {
      assert CleanedUp(Only(p, w)).files == Only(CleanedUp(p), w).files;
    } else {
      var q := SettleHead(p, mode).value;
      if p.journal[0].workspace == w {
        HeadOfOwn(p, w, mode);
      } else {
        HeadOfOther(p, w, mode);
      }
      Independent(q, w, mode);
    }
  }

  /** Recovery succeeds if and only if it succeeds for every Workspace alone. */
  lemma {:induction false} SucceedsIffEachDoes(p: Project, mode: Mode)
    ensures RecoverAll(p, mode).Ok? <==> forall w :: RecoverAll(Only(p, w), mode).Ok?
    decreases |p.journal|
  {
    if RecoverAll(p, mode).Ok? {
      forall w ensures RecoverAll(Only(p, w), mode).Ok? { Independent(p, w, mode); }
    } else {
      var w := p.journal[0].workspace;
      HeadOfOwn(p, w, mode);
      if SettleHead(p, mode).Ok? {
        var q := SettleHead(p, mode).value;
        SucceedsIffEachDoes(q, mode);
        var x :| RecoverAll(Only(q, x), mode).Err?;
        if x == w {
          assert RecoverAll(Only(p, w), mode).Err?;
        } else {
          HeadOfOther(p, x, mode);
          assert RecoverAll(Only(p, x), mode).Err?;
        }
      } else {
        assert RecoverAll(Only(p, w), mode).Err?;
      }
    }
  }

  // The rows of calls on w.
  function CallRows(journal: seq<Operation>, w: Name): seq<Operation> {
    if journal == [] then []
    else (if journal[0].workspace == w && !Lifecycle(journal[0].kind) then [journal[0]]
          else []) + CallRows(journal[1..], w)
  }

  predicate IsActive(p: Project, w: Name) { w in p.records && p.records[w].Active? }

  /**
    Of one Workspace it is the recovery that the engine's crash theorem speaks of: rows of requests
    on an Active Workspace are dropped.
   */
  lemma {:induction false} AgreesWithEngine(p: Project, w: Name, nextId: nat, mode: Mode)
    requires forall i | 0 <= i < |p.journal| ::
      p.journal[i].workspace == w && (Lifecycle(p.journal[i].kind) ==> IsActive(p, w))
    ensures RecoverAll(p, mode).Ok? <==> Recover(Disk(p.At(w), CallRows(p.journal, w), nextId), mode).Ok?
    ensures RecoverAll(p, mode).Ok? ==>
      RecoverAll(p, mode).value.At(w) == Recover(Disk(p.At(w), CallRows(p.journal, w), nextId), mode).value.files
    decreases |p.journal|
  {
    if p.journal != [] {
      hide RecoverAll, Recover, SettleHead, SettleOp;
      HeadAgrees(p, w, mode);
      NextOfAll(p, mode);
      var op, rest := p.journal[0], CallRows(p.journal[1..], w);
      if Lifecycle(op.kind) {
        assert CallRows(p.journal, w) == rest;
        AgreesWithEngine(p.Dropped(), w, nextId, mode);
      } else {
        assert CallRows(p.journal, w) == [op] + rest;
        NextOfOne(p.At(w), op, rest, nextId, mode);
        if SettleOp(p.At(w), op, mode).Ok? {
          AgreesWithEngine(p.Put(w, SettleOp(p.At(w), op, mode).value).Dropped(), w, nextId, mode);
        }
      }
    }
  }

  lemma NextOfAll(p: Project, mode: Mode)
    requires p.journal != []
    ensures SettleHead(p, mode).Err? ==> RecoverAll(p, mode) == SettleHead(p, mode)
    ensures SettleHead(p, mode).Ok? ==> RecoverAll(p, mode) == RecoverAll(SettleHead(p, mode).value, mode)
  {
  }

  lemma NextOfOne(f: Files, op: Operation, rest: seq<Operation>, nextId: nat, mode: Mode)
    ensures SettleOp(f, op, mode).Err? ==> Recover(Disk(f, [op] + rest, nextId), mode).Err?
    ensures SettleOp(f, op, mode).Ok? ==>
      Recover(Disk(f, [op] + rest, nextId), mode) == Recover(Disk(SettleOp(f, op, mode).value, rest, nextId), mode)
  {
    assert ([op] + rest)[1..] == rest;
  }

  lemma HeadAgrees(p: Project, w: Name, mode: Mode)
    requires p.journal != [] && p.journal[0].workspace == w && (Lifecycle(p.journal[0].kind) ==> IsActive(p, w))
    ensures var op := p.journal[0];
            if Lifecycle(op.kind) then SettleHead(p, mode) == Ok(p.Dropped())
            else match SettleOp(p.At(w), op, mode)
              case Err(e) => SettleHead(p, mode) == Err(e)
              case Ok(f) => SettleHead(p, mode) == Ok(p.Put(w, f).Dropped()) && p.Put(w, f).Dropped().At(w) == f
  {
    hide SettleOp;
  }

  // ----- the recovery loop -----

  class Recoverer {
    const mode: Mode
    var project: Project
    ghost var trace: seq<Project>

    constructor (mode: Mode, project: Project)
      ensures SoundRows(project.journal) ==> Recorded()
      ensures this.mode == mode && this.project == project && trace == [project]
    {
      this.mode, this.project, trace := mode, project, [project];
    }

    // The trace is a run of recovery steps that ends in the present state, and starting again from
    // any state of it ends alike.
    ghost predicate Recorded()
      reads this
    {
      && trace != [] && trace[|trace| - 1] == project && SoundRows(project.journal)
      && (forall i | 0 <= i < |trace| - 1 :: RecoveryStep(trace[i], trace[i + 1], mode))
      && (forall i | 0 <= i < |trace| :: RecoverAll(trace[i], mode) == RecoverAll(project, mode))
    }

    // One durable step.
    method Take(q: Project)
      requires Recorded() && RecoveryStep(project, q, mode)
      modifies this`project, this`trace
      ensures Recorded() && project == q && RecoverAll(q, mode) == RecoverAll(old(project), mode)
    {
      StepKeepsOutcome(project, q, mode);
      trace := trace + [q];
      project := q;
    }

    /**
      The loop over the journal.  It ends as RecoverAll says, every state on the way is one from
      which starting again ends the same, and a refused record stops it.
     */
    method RecoverInterruptedOperations() returns (refused: Option<Refusal>)
      requires Recorded()
      modifies this`project, this`trace
      ensures Recorded()
      ensures RecoverAll(old(project), mode) == if refused.None? then Ok(project) else Err(refused.value)
      ensures RecoverAll(project, mode) == RecoverAll(old(project), mode)
    {
      while project.journal != []
        invariant Recorded() && RecoverAll(project, mode) == RecoverAll(old(project), mode)
        decreases |project.journal|
      {
        refused := SettleFirst();
        if refused.Some? { return; }
      }
      assert CleanedUp(project).files.Keys == project.files.Keys;
      assert CleanedUp(CleanedUp(project)) == CleanedUp(project);
      Take(CleanedUp(project));
      refused := None;
    }

    method SettleFirst() returns (refused: Option<Refusal>)
      requires Recorded() && project.journal != []
      modifies this`project, this`trace
      ensures Recorded() && RecoverAll(project, mode) == RecoverAll(old(project), mode)
      ensures refused.None? ==> project.journal == old(project.journal)[1..]
      ensures refused.Some? ==> RecoverAll(project, mode) == Err(refused.value)
    {
      hide RecoveryStep, RecoverAll;
      var op := project.journal[0];
      if Lifecycle(op.kind) {
        SettleLifecycle(op);
      } else if op.path != [] {
        SettleCall(op);
      }
      refused := DropHead();
    }

    // What is left of the turn, in one transaction: the rows change and the record goes.
    method DropHead() returns (refused: Option<Refusal>)
      requires Recorded() && project.journal != []
      modifies this`project, this`trace
      ensures Recorded() && RecoverAll(project, mode) == RecoverAll(old(project), mode)
      ensures refused.None? ==> project.journal == old(project.journal)[1..]
      ensures refused.Some? ==> RecoverAll(project, mode) == Err(refused.value)
    {
      match SettleHead(project, mode)
      case Err(e) => refused := Some(e);
      case Ok(q) => Take(q); refused := None;
    }

    // The file-system part of a call's record.
    method SettleCall(op: Operation)
      requires Recorded() && project.journal != [] && project.journal[0] == op && !Lifecycle(op.kind) && op.path != []
      modifies this`project, this`trace
      ensures Recorded() && RecoverAll(project, mode) == RecoverAll(old(project), mode)
        && project.journal == old(project.journal)
    {
      if op.phase.Prepared? {
        RemoveStage(op);
      } else if op.kind.Unlink? {
        RemoveEntry(op);
      } else if op.kind.Rmdir? {
        RemoveSource(op);
      } else {
        var published := PublishStep(op);
        if published && op.kind.Rename? { RemoveSource(op); }
      }
    }

    // remove of an unlinked entry; it may be gone already, and a filled directory stays.
    method RemoveEntry(op: Operation)
      requires Recorded() && project.journal != [] && project.journal[0] == op && op.kind.Unlink? && op.path != []
        && op.phase.Publishing?
      modifies this`project, this`trace
      ensures Recorded() && RecoverAll(project, mode) == RecoverAll(old(project), mode)
        && project.journal == old(project.journal)
      ensures op.path in project.At(op.workspace).upper ==> HasChild(project.At(op.workspace).upper, op.path)
    {
      var w := op.workspace;
      var f := project.At(w);
      if op.path in f.upper && !HasChild(f.upper, op.path) {
        Take(project.Put(w, f.(upper := f.upper - {op.path})));
      }
    }

    // A creation without an Active record is rolled back, a removal finished: the Workspace directory
    // goes entry by entry, a removal clears the tombstones, and then the record says Reclaimed.
    method SettleLifecycle(op: Operation)
      requires Recorded() && project.journal != [] && project.journal[0] == op && Lifecycle(op.kind)
      modifies this`project, this`trace
      ensures Recorded() && RecoverAll(project, mode) == RecoverAll(old(project), mode)
        && project.journal == old(project.journal)
    {
      hide RecoverAll, SettleHead;
      var w := op.workspace;
      if (w in project.records && project.records[w].Active?) || (op.kind.WorkspaceRemove? && w !in project.records) {
        return;
      }
      EmptyDirectory(op);
      if op.kind.WorkspaceRemove? {
        TombsStep(project, op, mode);
        Take(project.Put(w, NoFiles()));
      }
      RecordStep(project, op, mode);
      Take(project.Put(w, project.At(w)).Reclaim(w));
    }

    // remove_all of the Workspace directory, then the stages with it.
    method EmptyDirectory(op: Operation)
      requires Recorded() && project.journal != [] && project.journal[0] == op && Lifecycle(op.kind)
      requires var w := op.workspace;
               && !(w in project.records && project.records[w].Active?)
               && (op.kind.WorkspaceRemove? ==> w in project.records)
      modifies this`project, this`trace
      ensures Recorded() && RecoverAll(project, mode) == RecoverAll(old(project), mode)
      ensures project.journal == old(project.journal) && project.records == old(project.records)
      ensures project.At(op.workspace) == NoFiles().(tombs := old(project).At(op.workspace).tombs)
    {
      hide RecoverAll, SettleHead, RecoveryStep;
      var w := op.workspace;
      while project.At(w).upper != map[]
        invariant Recorded() && RecoverAll(project, mode) == RecoverAll(old(project), mode)
        invariant project.journal == old(project.journal) && project.records == old(project.records)
        invariant project.At(w).tombs == old(project).At(w).tombs
        decreases |project.At(w).upper|
      {
        var f := project.At(w);
        assert f.upper.Keys != {};
        var entry :| entry in f.upper;
        assert (f.upper - {entry}).Keys == f.upper.Keys - {entry};
        EntryStep(project, op, f.(upper := f.upper - {entry}), mode);
        Take(project.Put(w, f.(upper := f.upper - {entry})));
      }
      EntryStep(project, op, project.At(w).(stages := map[]), mode);
      Take(project.Put(w, project.At(w).(stages := map[])));
    }

    method RemoveStage(op: Operation)
      requires Recorded() && project.journal != [] && project.journal[0] == op
      requires !Lifecycle(op.kind) && op.path != [] && op.phase.Prepared?
      modifies this`project, this`trace
      ensures Recorded() && RecoverAll(project, mode) == RecoverAll(old(project), mode)
        && project.journal == old(project.journal)
      ensures !StageExists(project.At(op.workspace), op)
    {
      while StageExists(project.At(op.workspace), op)
        invariant Recorded() && RecoverAll(project, mode) == RecoverAll(old(project), mode)
          && project.journal == old(project.journal)
        decreases if StageExists(project.At(op.workspace), op) then |project.At(op.workspace).stages[op.id]| else 0
      {
        var f := project.At(op.workspace);
        var entry :| entry in f.stages[op.id] && (f.stages[op.id].Keys == {[]} || entry != []);
        var left := f.stages[op.id] - {entry};
        assert left.Keys == f.stages[op.id].Keys - {entry};
        var stages := if left == map[] then f.stages - {op.id} else f.stages[op.id := left];
        assert StagesShrunk(f.stages, stages, op.id) by { assert f.stages - {op.id} == stages - {op.id}; }
        Take(project.Put(op.workspace, f.(stages := stages)));
      }
    }

    method PublishStep(op: Operation) returns (published: bool)
      requires Recorded() && project.journal != [] && project.journal[0] == op
      requires Staged(op.kind) && op.path != [] && op.phase.Publishing?
      modifies this`project, this`trace
      ensures Recorded() && RecoverAll(project, mode) == RecoverAll(old(project), mode)
        && project.journal == old(project.journal)
      ensures published ==> !StageExists(project.At(op.workspace), op) && Dest(op) in project.At(op.workspace).upper
    {
      var w := op.workspace;
      var f := project.At(w);
      if !StageExists(f, op) { return Dest(op) in f.upper; }
      var k := 0;
      while k < |Dest(op)|
        invariant Recorded() && RecoverAll(project, mode) == RecoverAll(old(project), mode)
          && project.journal == old(project.journal)
        invariant f == project.At(w) && StageExists(f, op)
      {
        var made := MakeDirs(f.upper, Dest(op)[..k], mode);
        if made.None? { return false; }
        assert Under(Dest(op), Dest(op)[..k]);
        Take(project.Put(w, f.(upper := made.value)));
        f := project.At(w);
        k := k + 1;
      }
      match PublishStaged(f, op, mode)
      case Err(_) => return false;
      case Ok(g) =>
        GraftRoot(if Dest(op) == [] then f.upper
                  else MakeDirs(f.upper, Parent(Dest(op)), mode).value, Dest(op), f.stages[op.id]);
        Take(project.Put(w, g));
        return true;
    }

    // remove_all of a rename's source or of a removed directory.
    method RemoveSource(op: Operation)
      requires Recorded() && project.journal != [] && project.journal[0] == op
      requires op.path != [] && op.phase.Publishing?
      requires op.kind.Rmdir? || (op.kind.Rename? && !StageExists(project.At(op.workspace), op)
                                  && op.target in project.At(op.workspace).upper)
      modifies this`project, this`trace
      ensures Recorded() && RecoverAll(project, mode) == RecoverAll(old(project), mode)
        && project.journal == old(project.journal)
    {
      var w := op.workspace;
      hide RecoveryStep, RecoverAll, SettleHead;
      while exists q :: q in project.At(w).upper && AtOrUnder(q, op.path)
        invariant Recorded() && RecoverAll(project, mode) == RecoverAll(old(project), mode)
          && project.journal == old(project.journal)
        invariant op.kind.Rename? ==> !StageExists(project.At(w), op) && op.target in project.At(w).upper
        decreases |project.At(w).upper|
      {
        var f := project.At(w);
        LeafAtOrUnder(f.upper, op.path);
        var leaf :| leaf in f.upper && AtOrUnder(leaf, op.path) && !HasChild(f.upper, leaf);
        assert (f.upper - {leaf}).Keys == f.upper.Keys - {leaf};
        SourceIsStep(project, op, leaf, mode);
        Take(project.Put(w, f.(upper := f.upper - {leaf})));
      }
    }
  }
}
