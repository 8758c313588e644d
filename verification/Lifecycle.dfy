/**
  The lifecycle of Workspaces as a state machine: creation, removal, background
  reclamation, file-system calls, crashes and recovery, interleaved step by step.

  Every step concerns one Workspace name, so the state is kept name by name; the
  journal that recovery walks is the rows of all names in the order of their ids.
 */
module Lifecycle {
  import opened Layers
  import opened Journal
  import opened ProjectRecovery

  datatype CreateAt = Journaled | Saved | Stored | Registered | Pointed | Activated | Unrowed
                    | UndoStorage | UndoRecord | UndoRow

  // What the control server, which handles one request at a time, is doing.
  datatype Task = Idle | Creation(name: Name, id: nat, at: CreateAt) | Removal(name: Name, id: nat, saved: bool)

  datatype ReclaimAt = Git | Storage | Tombs | Record | Row

  // Durable: record, files and journal rows.  Volatile: the engine, its call in flight and the
  // reclaiming threads.  Two fields are history: `live`, the Active commit happened and its Removed
  // commit did not; `touched`, an engine call has begun since the Active commit.
  datatype Local = Local(record: Option<RecordState>, files: Files, rows: map<nat, Operation>, live: bool,
                         touched: bool, engine: bool, call: Option<nat>, workers: map<nat, ReclaimAt>)

  datatype State = State(names: map<Name, Local>, nextId: nat, running: bool, task: Task) {
    function Of(w: Name): Local {
      if w in names then names[w] else Unused()
    }

    function Put(w: Name, l: Local): State {
      this.(names := names[w := l])
    }

    // The request being served, as far as it concerns w.
    function TaskOf(w: Name): Task {
      if !task.Idle? && task.name == w then task else Idle
    }
  }

  function Unused(): Local { Local(None, NoFiles(), map[], false, false, false, None, map[]) }

  function LifecycleRow(id: nat, kind: Kind, w: Name): Operation {
    Operation(id, w, kind, [w], [], Prepared, false, false)
  }

  function FreshUpper(root: Inode): Layer { map[[] := root] }

  function PointedUpper(root: Inode, git: Inode): Layer { map[[] := root, [GIT_DIR] := git] }

  // ----- the steps -----

  datatype Step =
    // create_workspace
    | CreateBegin | CreateSave | CreateSaveFails | CreateStore(root: Inode) | CreateStoreFault | CreateStuck
    | CreateRegister | CreatePoint(git: Inode) | CreateActivate | CreateUnrow | CreateUnrowFails | CreateOpen
    | CreateFails | CreateUndoStorage | CreateUndoRecord | CreateUndoRow
    // remove_workspace
    | RemoveBegin | RemoveRefused | RemoveSave | RemoveStart
    // the reclaiming thread of removal `id`
    | ReclaimGit(id: nat) | ReclaimEntry(id: nat, upper: Layer) | ReclaimStorage(id: nat) | ReclaimTombs(id: nat)
    | ReclaimRecord(id: nat) | ReclaimRow(id: nat) | ReclaimFails(id: nat)
    // an engine call: its durable writes, seen from outside
    | CallBegin(op: Operation) | CallWork(upper: Layer, stages: map<nat,
                                          Layer>) | CallPublish | CallEnd(tombs: set<Path>)
    // recovery of the row `row`
    | Settle(row: Operation) | SettleEntry(row: Operation, upper: Layer, stages: map<nat,
                                           Layer>) | SettleTombs(row: Operation) | SettleRecord(row: Operation)

  predicate CreationAt(t: Task, at: CreateAt) { t.Creation? && t.at == at }

  predicate WorkerAt(l: Local, id: nat, at: ReclaimAt) { id in l.workers && l.workers[id] == at }

  // Whether a step of name w may happen, given w's part of the state and the request being served.
  ghost predicate Enabled(w: Name, l: Local, t: Task, idle: bool, running: bool, nextId: nat, step: Step, mode: Mode) {
    match step
    case CreateBegin => running && idle && !l.engine && (l.record.None? || l.record == Some(Reclaimed))
    case CreateSave => CreationAt(t, Journaled)
    case CreateSaveFails => CreationAt(t, Journaled)
    case CreateStore(root) => CreationAt(t, Saved) && root.node.Dir?
    case CreateStoreFault => CreationAt(t, Saved)
    case CreateStuck => CreationAt(t, Saved) || CreationAt(t, Stored)
    case CreateRegister => CreationAt(t, Stored)
    case CreatePoint(git) => CreationAt(t, Registered) && git.node.File? && [] in l.files.upper
    case CreateActivate => CreationAt(t, Pointed)
    case CreateUnrow => CreationAt(t, Activated)
    case CreateUnrowFails => CreationAt(t, Activated)
    case CreateOpen => CreationAt(t, Unrowed)
    case CreateFails => CreationAt(t, Stored) || CreationAt(t, Registered) || CreationAt(t, Pointed)
    case CreateUndoStorage => CreationAt(t, UndoStorage)
    case CreateUndoRecord => CreationAt(t, UndoRecord)
    case CreateUndoRow => CreationAt(t, UndoRow)
    case RemoveBegin => running && idle && l.record == Some(Active)
    case RemoveRefused => t.Removal? && !t.saved
    case RemoveSave => t.Removal? && !t.saved && l.engine && l.call.None?
    case RemoveStart => t.Removal? && t.saved
    case ReclaimGit(id) => WorkerAt(l, id, Git)
    case ReclaimEntry(id, upper) => WorkerAt(l, id, Storage) && Shrunk(l.files.upper, upper)
    case ReclaimStorage(id) => WorkerAt(l, id, Storage)
    case ReclaimTombs(id) => WorkerAt(l, id, Tombs)
    case ReclaimRecord(id) => WorkerAt(l, id, Record)
    case ReclaimRow(id) => WorkerAt(l, id, Row)
    case ReclaimFails(id) => id in l.workers
    case CallBegin(op) => l.engine && l.call.None? && !t.Removal? && op.id == nextId && op.workspace == w
      && !Lifecycle(op.kind) && SoundRow(op)
    case CallWork(_, _) => l.engine && !t.Removal?
    case CallPublish => l.call.Some?
    case CallEnd(_) => l.call.Some?
    case Settle(row) => !running && row.id in l.rows && l.rows[row.id] == row
      && (Lifecycle(row.kind) || SettleOp(l.files, row, mode).Ok?)
    case SettleEntry(row, upper, _) =>
      !running && row.id in l.rows && l.rows[row.id] == row
        && (if Lifecycle(row.kind) then l.record != Some(Active) && Shrunk(l.files.upper, upper) else true)
    case SettleTombs(row) =>
      !running && row.id in l.rows && l.rows[row.id] == row && row.kind.WorkspaceRemove? && l.record == Some(Removed)
      && l.files.upper == map[]
    case SettleRecord(row) =>
      !running && row.id in l.rows && l.rows[row.id] == row && Lifecycle(row.kind) && l.record.Some?
        && l.record != Some(Active)
      && l.files.upper == map[] && (row.kind.WorkspaceRemove? ==> l.files.tombs == {})
  }

  function Advance(t: Task, at: CreateAt): Task
    requires t.Creation?
  {
    t.(at := at)
  }

  function Settled(l: Local, row: Operation, mode: Mode): Local
    requires Lifecycle(row.kind) || SettleOp(l.files, row, mode).Ok?
  {
    var rest := l.rows - {row.id};
    if row.kind.WorkspaceCreate? then
      if l.record == Some(Active) then l.(rows := rest)
      else l.(files := NoFiles().(tombs := l.files.tombs), record := if l.record.Some? then Some(Reclaimed)
              else None, rows := rest)
    else if row.kind.WorkspaceRemove? then
      if l.record.None? || l.record == Some(Active) then l.(rows := rest)
      else l.(files := NoFiles(), record := Some(Reclaimed), rows := rest)
    else l.(files := SettleOp(l.files, row, mode).value, rows := rest)
  }

  // What a step makes of w's part of the state.
  function NextLocal(w: Name, l: Local, t: Task, idle: bool, running: bool, nextId: nat, step: Step, mode: Mode): Local
    requires Enabled(w, l, t, idle, running, nextId, step, mode)
  {
    match step
    case CreateBegin => l.(rows := l.rows[nextId := LifecycleRow(nextId, WorkspaceCreate, w)])
    case CreateSave => l.(record := Some(Creating))
    case CreateSaveFails => l.(rows := l.rows - {t.id})
    case CreateStore(root) => l.(files := l.files.(upper := FreshUpper(root)))
    case CreateStoreFault => l
    case CreateStuck => l
    case CreateRegister => l
    case CreatePoint(git) => l.(files := l.files.(upper := PointedUpper(l.files.upper[[]], git)))
    case CreateActivate => l.(record := Some(Active), live := true, touched := false)
    case CreateUnrow => l.(rows := l.rows - {t.id})
    case CreateUnrowFails => l
    case CreateOpen => l.(engine := true)
    case CreateFails => l
    case CreateUndoStorage => l.(files := l.files.(upper := map[]))
    case CreateUndoRecord => l.(record := Some(Reclaimed))
    case CreateUndoRow => l.(rows := l.rows - {t.id})
    case RemoveBegin => l.(rows := l.rows[nextId := LifecycleRow(nextId, WorkspaceRemove, w)])
    case RemoveRefused => l.(rows := l.rows - {t.id})
    case RemoveSave => l.(record := Some(Removed), live := false)
    case RemoveStart => l.(engine := false, workers := l.workers[t.id := Git])
    case ReclaimGit(id) => l.(workers := l.workers[id := Storage])
    case ReclaimEntry(id, upper) => l.(files := l.files.(upper := upper))
    case ReclaimStorage(id) => l.(files := l.files.(upper := map[], stages := map[]), workers := l.workers[id := Tombs])
    case ReclaimTombs(id) => l.(files := l.files.(tombs := {}), workers := l.workers[id := Record])
    case ReclaimRecord(id) => l.(record := Some(Reclaimed), workers := l.workers[id := Row])
    case ReclaimRow(id) => l.(rows := l.rows - {id}, workers := l.workers - {id})
    case ReclaimFails(id) => l.(workers := l.workers - {id})
    case CallBegin(op) => l.(rows := l.rows[op.id := op], call := Some(op.id), touched := true)
    case CallWork(upper, stages) => l.(files := l.files.(upper := upper, stages := stages), touched := true)
    case CallPublish => l.(rows := if l.call.value in l.rows
                           then l.rows[l.call.value := l.rows[l.call.value].(phase := Publishing)] else l.rows)
    case CallEnd(tombs) => l.(files := l.files.(tombs := tombs), rows := l.rows - {l.call.value}, call := None)
    case Settle(row) => Settled(l, row, mode)
    case SettleEntry(row, upper, stages) => l.(files := l.files.(upper := upper, stages := stages))
    case SettleTombs(row) => l.(files := l.files.(tombs := {}))
    case SettleRecord(row) => l.(record := Some(Reclaimed))
  }

  function NextTask(w: Name, t: Task, nextId: nat, step: Step): Task {
    match step
    case CreateBegin => Creation(w, nextId, Journaled)
    case CreateSave => if t.Creation? then Advance(t, Saved) else t
    case CreateStore(_) => if t.Creation? then Advance(t, Stored) else t
    case CreateStoreFault => if t.Creation? then Advance(t, UndoRecord) else t
    case CreateRegister => if t.Creation? then Advance(t, Registered) else t
    case CreatePoint(_) => if t.Creation? then Advance(t, Pointed) else t
    case CreateActivate => if t.Creation? then Advance(t, Activated) else t
    case CreateUnrow => if t.Creation? then Advance(t, Unrowed) else t
    case CreateFails => if t.Creation? then Advance(t, UndoStorage) else t
    case CreateUndoStorage => if t.Creation? then Advance(t, UndoRecord) else t
    case CreateUndoRecord => if t.Creation? then Advance(t, UndoRow) else t
    case RemoveBegin => Removal(w, nextId, false)
    case RemoveSave => if t.Removal? then t.(saved := true) else t
    case _ =>
      if step.CreateSaveFails? || step.CreateStuck? || step.CreateUnrowFails? || step.CreateOpen? || step.CreateUndoRow?
         || step.RemoveRefused? || step.RemoveStart? then Idle else t
  }

  // A step that begins a journal record takes the next id.
  function NextIds(nextId: nat, step: Step): nat {
    if step.CreateBegin? || step.RemoveBegin? || step.CallBegin? then nextId + 1 else nextId
  }

  // ----- the invariant of one name -----

  predicate Pending(rows: map<nat, Operation>, kind: Kind) { exists i :: i in rows && rows[i].kind == kind }

  // A removal that no thread is about to report done.
  predicate RemovalPending(rows: map<nat, Operation>, workers: map<nat, ReclaimAt>) {
    exists i :: i in rows && rows[i].kind.WorkspaceRemove? && !(i in workers && workers[i].Row?)
  }

  predicate HasRow(l: Local, id: nat, kind: Kind) { id in l.rows && l.rows[id].kind == kind }

  ghost predicate RowsSound(w: Name, l: Local, t: Task, running: bool, nextId: nat) {
    && (forall i | i in l.rows :: i < nextId && l.rows[i].id == i && l.rows[i].workspace == w && SoundRow(l.rows[i]))
    // at most one unsettled file-system record
    && (forall i, j | i in l.rows && j in l.rows && !Lifecycle(l.rows[i].kind) && !Lifecycle(l.rows[j].kind) :: i == j)
    && (forall i | i in l.rows && !Lifecycle(l.rows[i].kind) ::
        l.record == Some(Active) && (running ==> l.call == Some(i)))
    && (forall i, j | i in l.rows && j in l.rows && l.rows[i].kind.WorkspaceCreate?
        && l.rows[j].kind.WorkspaceCreate? :: i == j)
    && (forall i | i in l.rows && l.rows[i].kind.WorkspaceCreate? ::
          && l.record != Some(Removed) && !l.engine
          && (running ==> l.record == Some(Creating) || l.record == Some(Active)
                          || (t.Creation? && t.id == i && (t.at == Journaled || t.at == UndoRow))))
  }

  ghost predicate RecordSound(l: Local) {
    && (l.record == Some(Creating) ==> Pending(l.rows, WorkspaceCreate))
    && (l.record == Some(Removed) ==> RemovalPending(l.rows, l.workers))
    && (l.record != Some(Active) && l.record != Some(Removed) ==> l.files.tombs == {})
    && (l.record.None? || l.record == Some(Reclaimed) ==> l.files.upper == map[])
    && (l.live <==> l.record == Some(Active))
  }

  ghost predicate IsFresh(f: Files) {
    exists root: Inode :: root.node.Dir? && f.upper == FreshUpper(root) && f.tombs == {}
  }

  ghost predicate IsPointed(f: Files) {
    exists root: Inode, git: Inode ::
      root.node.Dir? && git.node.File? && f.upper == PointedUpper(root, git) && f.tombs == {}
  }

  ghost predicate TaskSound(l: Local, t: Task, running: bool) {
    match t
    case Idle => true
    case Creation(_, id, at) =>
      && running && !l.engine
      && (if at == Unrowed then !Pending(l.rows, WorkspaceCreate) else HasRow(l, id, WorkspaceCreate))
      && (if at == Journaled then l.record.None? || l.record == Some(Reclaimed)
          else if at == Activated || at == Unrowed then l.record == Some(Active)
          else if at == UndoRow then l.record == Some(Reclaimed)
          else l.record == Some(Creating))
      && (at == Stored || at == Registered ==> IsFresh(l.files))
      && (at == Pointed || at == Activated || at == Unrowed ==> IsPointed(l.files))
      && (at == Saved || at == UndoRecord ==> l.files.upper == map[])
    case Removal(_, id, saved) =>
      && running && HasRow(l, id, WorkspaceRemove) && id !in l.workers
      && (if saved then l.record == Some(Removed) && l.engine && l.call.None? else l.record == Some(Active))
      && (saved ==> forall x | x in l.workers :: l.workers[x] == Row)
  }

  ghost predicate WorkersSound(l: Local) {
    && (forall id | id in l.workers ::
          && id in l.rows && l.rows[id].kind.WorkspaceRemove?
          && (l.workers[id] != Row ==> l.record == Some(Removed))
          && (l.workers[id] == Tombs || l.workers[id] == Record ==> l.files.upper == map[])
          && (l.workers[id] == Record ==> l.files.tombs == {}))
    && (forall id, id' | id in l.workers && id' in l.workers && l.workers[id] != Row && l.workers[id'] != Row ::
        id == id')
  }

  ghost predicate VolatileSound(l: Local, t: Task, running: bool) {
    && (!running ==> !l.engine && l.call.None? && l.workers == map[] && t.Idle?)
    && (l.engine ==> l.record == Some(Active) || (t.Removal? && t.saved))
    && (l.call.Some? ==>
          l.engine && l.record == Some(Active) && l.call.value in l.rows && !Lifecycle(l.rows[l.call.value].kind))
  }

  ghost predicate LocalSound(w: Name, l: Local, t: Task, running: bool, nextId: nat) {
    RowsSound(w, l, t, running, nextId) && RecordSound(l) && TaskSound(l, t, running) && WorkersSound(l)
      && VolatileSound(l, t, running)
  }

  // ----- every step keeps it -----

  lemma PendingKept(rows: map<nat, Operation>, gone: nat, kind: Kind)
    requires gone in rows ==> rows[gone].kind != kind
    ensures Pending(rows - {gone}, kind) == Pending(rows, kind)
  {
    if Pending(rows, kind) {
      var i :| i in rows && rows[i].kind == kind;
      assert i in rows - {gone};
    }
  }

  // A removal reported done is not the pending one.
  lemma RemovalPendingKept(rows: map<nat, Operation>, workers: map<nat, ReclaimAt>, gone: nat)
    requires RemovalPending(rows, workers) && gone in workers && workers[gone].Row?
    ensures RemovalPending(rows - {gone}, workers - {gone})
  {
    var i :| i in rows && rows[i].kind.WorkspaceRemove? && !(i in workers && workers[i].Row?);
    assert i in rows - {gone};
  }

  lemma WorkersWithoutRow(l: Local, id: nat)
    requires WorkersSound(l) && id in l.rows && l.rows[id].kind.WorkspaceCreate?
    ensures WorkersSound(l.(rows := l.rows - {id}))
  {
  }

  // ----- creation -----

  lemma CreationBegun(w: Name, l: Local, nextId: nat)
    requires LocalSound(w, l, Idle, true, nextId) && !l.engine && (l.record.None? || l.record == Some(Reclaimed))
    ensures LocalSound(w, l.(rows := l.rows[nextId := LifecycleRow(nextId, WorkspaceCreate, w)]),
                       Creation(w, nextId, Journaled), true, nextId + 1)
  {
    hide Pending, RemovalPending, IsFresh, IsPointed;
  }

  lemma RecordSaved(w: Name, l: Local, t: Task, running: bool, nextId: nat)
    requires LocalSound(w, l, t, running, nextId) && CreationAt(t, Journaled)
    ensures LocalSound(w, l.(record := Some(Creating)), Advance(t, Saved), running, nextId)
  {
    hide RemovalPending, IsFresh, IsPointed;
  }

  lemma SaveFailed(w: Name, l: Local, t: Task, running: bool, nextId: nat)
    requires LocalSound(w, l, t, running, nextId) && CreationAt(t, Journaled)
    ensures LocalSound(w, l.(rows := l.rows - {t.id}), Idle, running, nextId)
  {
    WorkersWithoutRow(l, t.id);
    hide Pending, RemovalPending, IsFresh, IsPointed, WorkersSound;
    assert forall i | i in l.rows && l.rows[i].kind.WorkspaceCreate? :: i == t.id;
  }

  lemma StorageMade(w: Name, l: Local, t: Task, running: bool, nextId: nat, root: Inode)
    requires LocalSound(w, l, t, running, nextId) && CreationAt(t, Saved) && root.node.Dir?
    ensures LocalSound(w, l.(files := l.files.(upper := FreshUpper(root))), Advance(t, Stored), running, nextId)
  {
    hide Pending, RemovalPending, IsPointed, RowsSound;
    SameRows(w, l, l.(files := l.files.(upper := FreshUpper(root))), t, Advance(t, Stored), running, nextId);
  }

  // What the rows promise does not depend on the files, and on the task only while a creation begins or ends.
  lemma SameRows(w: Name, l: Local, l': Local, t: Task, t': Task, running: bool, nextId: nat)
    requires RowsSound(w, l, t, running, nextId) && l'.rows == l.rows && l'.record == l.record && l'.engine == l.engine
      && l'.call == l.call
    requires t' == t || (t.Creation? && t.at != Journaled && t.at != UndoRow)
    ensures RowsSound(w, l', t', running, nextId)
  {
  }

  // Creation goes on, or undoes itself, without touching anything durable.
  lemma CreationAdvances(w: Name, l: Local, t: Task, running: bool, nextId: nat, at: CreateAt)
    requires LocalSound(w, l, t, running, nextId) && t.Creation?
    requires (t.at == Stored && at == Registered) || (t.at == Saved && at == UndoRecord)
          || (at == UndoStorage && (t.at == Stored || t.at == Registered || t.at == Pointed))
    ensures LocalSound(w, l, Advance(t, at), running, nextId)
  {
    hide Pending, RemovalPending, IsFresh, IsPointed, RowsSound, RecordSound, WorkersSound;
    SameRows(w, l, l, t, Advance(t, at), running, nextId);
  }

  // It stops, and leaves the rest to recovery.
  lemma CreationStops(w: Name, l: Local, t: Task, running: bool, nextId: nat)
    requires LocalSound(w, l, t, running, nextId) && t.Creation?
      && (t.at == Saved || t.at == Stored || t.at == Activated)
    ensures LocalSound(w, l, Idle, running, nextId)
  {
    hide Pending, RemovalPending, IsFresh, IsPointed, RowsSound, RecordSound, WorkersSound;
    SameRows(w, l, l, t, Idle, running, nextId);
  }

  lemma PointerWritten(w: Name, l: Local, t: Task, running: bool, nextId: nat, git: Inode)
    requires LocalSound(w, l, t, running, nextId) && CreationAt(t, Registered) && git.node.File? && [] in l.files.upper
    ensures LocalSound(w, l.(files := l.files.(upper := PointedUpper(l.files.upper[[]], git))), Advance(t, Pointed),
                       running, nextId)
  {
    hide Pending, RemovalPending, RowsSound;
    SameRows(w, l, l.(files := l.files.(upper := PointedUpper(l.files.upper[[]], git))), t, Advance(t, Pointed),
             running, nextId);
  }

  lemma ActiveCommitted(w: Name, l: Local, t: Task, running: bool, nextId: nat)
    requires LocalSound(w, l, t, running, nextId) && CreationAt(t, Pointed)
    ensures LocalSound(w, l.(record := Some(Active), live := true, touched := false), Advance(t, Activated), running,
                       nextId)
  {
    hide Pending, RemovalPending, IsFresh, IsPointed;
  }

  lemma RowClosed(w: Name, l: Local, t: Task, running: bool, nextId: nat)
    requires LocalSound(w, l, t, running, nextId) && CreationAt(t, Activated)
    ensures LocalSound(w, l.(rows := l.rows - {t.id}), Advance(t, Unrowed), running, nextId)
  {
    WorkersWithoutRow(l, t.id);
    hide RemovalPending, IsFresh, IsPointed, WorkersSound;
  }

  lemma EngineOpened(w: Name, l: Local, t: Task, running: bool, nextId: nat)
    requires LocalSound(w, l, t, running, nextId) && CreationAt(t, Unrowed)
    ensures LocalSound(w, l.(engine := true), Idle, running, nextId)
  {
    hide RemovalPending, IsFresh, IsPointed;
  }

  lemma StorageUndone(w: Name, l: Local, t: Task, running: bool, nextId: nat)
    requires LocalSound(w, l, t, running, nextId) && CreationAt(t, UndoStorage)
    ensures LocalSound(w, l.(files := l.files.(upper := map[])), Advance(t, UndoRecord), running, nextId)
  {
    hide Pending, RemovalPending, IsFresh, IsPointed, RowsSound;
    SameRows(w, l, l.(files := l.files.(upper := map[])), t, Advance(t, UndoRecord), running, nextId);
  }

  lemma RecordUndone(w: Name, l: Local, t: Task, running: bool, nextId: nat)
    requires LocalSound(w, l, t, running, nextId) && CreationAt(t, UndoRecord)
    ensures LocalSound(w, l.(record := Some(Reclaimed)), Advance(t, UndoRow), running, nextId)
  {
    hide Pending, RemovalPending, IsFresh, IsPointed;
  }

  lemma CreationUndone(w: Name, l: Local, t: Task, running: bool, nextId: nat)
    requires LocalSound(w, l, t, running, nextId) && CreationAt(t, UndoRow)
    ensures LocalSound(w, l.(rows := l.rows - {t.id}), Idle, running, nextId)
  {
    WorkersWithoutRow(l, t.id);
    hide Pending, RemovalPending, IsFresh, IsPointed, WorkersSound;
    assert forall i | i in l.rows && l.rows[i].kind.WorkspaceCreate? :: i == t.id;
  }

  lemma CreationStepKeeps(w: Name, l: Local, t: Task, idle: bool, running: bool, nextId: nat, step: Step, mode: Mode)
    requires LocalSound(w, l, t, running, nextId) && Enabled(w, l, t, idle, running, nextId, step, mode)
    requires (idle ==> t.Idle?) && CreationStep(step)
    ensures LocalSound(w, NextLocal(w, l, t, idle, running, nextId, step, mode), NextTask(w, t, nextId, step), running,
                       NextIds(nextId, step))
  {
    hide LocalSound, SettleOp, Settled, Shrunk;
    match step
    case CreateBegin => CreationBegun(w, l, nextId);
    case CreateSave => RecordSaved(w, l, t, running, nextId);
    case CreateSaveFails => SaveFailed(w, l, t, running, nextId);
    case CreateStore(root) => StorageMade(w, l, t, running, nextId, root);
    case CreateStoreFault => CreationAdvances(w, l, t, running, nextId, UndoRecord);
    case CreateStuck => CreationStops(w, l, t, running, nextId);
    case CreateRegister => CreationAdvances(w, l, t, running, nextId, Registered);
    case CreatePoint(git) => PointerWritten(w, l, t, running, nextId, git);
    case CreateActivate => ActiveCommitted(w, l, t, running, nextId);
    case CreateUnrow => RowClosed(w, l, t, running, nextId);
    case CreateUnrowFails => CreationStops(w, l, t, running, nextId);
    case CreateOpen => EngineOpened(w, l, t, running, nextId);
    case CreateFails => CreationAdvances(w, l, t, running, nextId, UndoStorage);
    case CreateUndoStorage => StorageUndone(w, l, t, running, nextId);
    case CreateUndoRecord => RecordUndone(w, l, t, running, nextId);
    case CreateUndoRow => CreationUndone(w, l, t, running, nextId);
  }

  predicate CreationStep(step: Step) {
    || step.CreateBegin? || step.CreateSave? || step.CreateSaveFails? || step.CreateStore? || step.CreateStoreFault?
         || step.CreateStuck?
    || step.CreateRegister? || step.CreatePoint? || step.CreateActivate? || step.CreateUnrow? || step.CreateUnrowFails?
         || step.CreateOpen?
    || step.CreateFails? || step.CreateUndoStorage? || step.CreateUndoRecord? || step.CreateUndoRow?
  }

  // ----- removal and reclamation -----

  lemma RemovalBegun(w: Name, l: Local, nextId: nat)
    requires LocalSound(w, l, Idle, true, nextId) && l.record == Some(Active)
    ensures LocalSound(w, l.(rows := l.rows[nextId := LifecycleRow(nextId, WorkspaceRemove, w)]),
                       Removal(w, nextId, false), true, nextId + 1)
  {
    hide Pending, RemovalPending, IsFresh, IsPointed;
  }

  lemma RemovalRefused(w: Name, l: Local, t: Task, running: bool, nextId: nat)
    requires LocalSound(w, l, t, running, nextId) && t.Removal? && !t.saved
    ensures LocalSound(w, l.(rows := l.rows - {t.id}), Idle, running, nextId)
  {
    hide Pending, RemovalPending, IsFresh, IsPointed;
  }

  lemma RemovalSaved(w: Name, l: Local, t: Task, running: bool, nextId: nat)
    requires LocalSound(w, l, t, running, nextId) && t.Removal? && !t.saved && l.engine && l.call.None?
    ensures LocalSound(w, l.(record := Some(Removed), live := false), t.(saved := true), running, nextId)
  {
    hide Pending, IsFresh, IsPointed;
  }

  lemma HandedOver(w: Name, l: Local, t: Task, running: bool, nextId: nat)
    requires LocalSound(w, l, t, running, nextId) && t.Removal? && t.saved
    ensures LocalSound(w, l.(engine := false, workers := l.workers[t.id := Git]), Idle, running, nextId)
  {
    hide Pending, IsFresh, IsPointed;
  }

  // A thread that has not reported yet goes on.
  lemma WorkerAdvances(w: Name, l: Local, t: Task, running: bool, nextId: nat, id: nat, files: Files, at: ReclaimAt)
    requires LocalSound(w, l, t, running, nextId) && id in l.workers && l.workers[id] != Row && at != Row
    requires (at == Tombs || at == Record ==> files.upper == map[]) && (at == Record ==> files.tombs == {})
    ensures LocalSound(w, l.(files := files, workers := l.workers[id := at]), t, running, nextId)
  {
    hide Pending, IsFresh, IsPointed, RowsSound;
    SameRows(w, l, l.(files := files, workers := l.workers[id := at]), t, t, running, nextId);
  }

  lemma WorkerReports(w: Name, l: Local, t: Task, running: bool, nextId: nat, id: nat)
    requires LocalSound(w, l, t, running, nextId) && WorkerAt(l, id, Record)
    ensures LocalSound(w, l.(record := Some(Reclaimed), workers := l.workers[id := Row]), t, running, nextId)
  {
    hide Pending, IsFresh, IsPointed;
  }

  function DoneReclaiming(l: Local, id: nat): Local {
    l.(rows := l.rows - {id}, workers := l.workers - {id})
  }

  lemma RecordAfterReclaiming(l: Local, id: nat)
    requires RecordSound(l) && WorkersSound(l) && WorkerAt(l, id, Row)
    ensures RecordSound(DoneReclaiming(l, id)) && WorkersSound(DoneReclaiming(l, id))
  {
    hide Pending, RemovalPending;
    PendingKept(l.rows, id, WorkspaceCreate);
    if l.record == Some(Removed) { RemovalPendingKept(l.rows, l.workers, id); }
  }

  lemma TaskAfterReclaiming(l: Local, t: Task, running: bool, id: nat)
    requires TaskSound(l, t, running) && WorkersSound(l) && WorkerAt(l, id, Row)
    ensures TaskSound(DoneReclaiming(l, id), t, running)
  {
    hide Pending, IsFresh, IsPointed;
    PendingKept(l.rows, id, WorkspaceCreate);
  }

  lemma WorkerDone(w: Name, l: Local, t: Task, running: bool, nextId: nat, id: nat)
    requires LocalSound(w, l, t, running, nextId) && WorkerAt(l, id, Row)
    ensures LocalSound(w, DoneReclaiming(l, id), t, running, nextId)
  {
    RecordAfterReclaiming(l, id);
    TaskAfterReclaiming(l, t, running, id);
    assert l.rows[id].kind.WorkspaceRemove?;
    hide TaskSound, RecordSound, WorkersSound;
  }

  lemma WorkerGivesUp(w: Name, l: Local, t: Task, running: bool, nextId: nat, id: nat)
    requires LocalSound(w, l, t, running, nextId) && id in l.workers
    ensures LocalSound(w, l.(workers := l.workers - {id}), t, running, nextId)
  {
    hide Pending, IsFresh, IsPointed, RowsSound;
    SameRows(w, l, l.(workers := l.workers - {id}), t, t, running, nextId);
  }

  lemma RemovalStepKeeps(w: Name, l: Local, t: Task, idle: bool, running: bool, nextId: nat, step: Step, mode: Mode)
    requires LocalSound(w, l, t, running, nextId) && Enabled(w, l, t, idle, running, nextId, step, mode)
    requires (idle ==> t.Idle?) && RemovalStep(step)
    ensures LocalSound(w, NextLocal(w, l, t, idle, running, nextId, step, mode), NextTask(w, t, nextId, step), running,
                       NextIds(nextId, step))
  {
    hide LocalSound, SettleOp, Settled, Shrunk;
    match step
    case RemoveBegin => RemovalBegun(w, l, nextId);
    case RemoveRefused => RemovalRefused(w, l, t, running, nextId);
    case RemoveSave => RemovalSaved(w, l, t, running, nextId);
    case RemoveStart => HandedOver(w, l, t, running, nextId);
  }

  lemma ReclaimStepKeeps(w: Name, l: Local, t: Task, idle: bool, running: bool, nextId: nat, step: Step, mode: Mode)
    requires LocalSound(w, l, t, running, nextId) && Enabled(w, l, t, idle, running, nextId, step, mode)
    requires (idle ==> t.Idle?) && ReclaimStep(step)
    ensures LocalSound(w, NextLocal(w, l, t, idle, running, nextId, step, mode), NextTask(w, t, nextId, step), running,
                       NextIds(nextId, step))
  {
    hide LocalSound, SettleOp, Settled, Shrunk, NextTask;
    TaskStays(w, t, nextId, step);
    match step
    case ReclaimGit(id) => WorkerAdvances(w, l, t, running, nextId, id, l.files, Storage);
    case ReclaimEntry(id, upper) => EntryReclaimed(w, l, t, running, nextId, id, upper);
    case ReclaimStorage(id) =>
      WorkerAdvances(w, l, t, running, nextId, id, l.files.(upper := map[], stages := map[]), Tombs);
    case ReclaimTombs(id) => TombsCleared(w, l, t, running, nextId, id);
    case ReclaimRecord(id) => WorkerReports(w, l, t, running, nextId, id);
    case ReclaimRow(id) => WorkerDone(w, l, t, running, nextId, id);
    case ReclaimFails(id) => WorkerGivesUp(w, l, t, running, nextId, id);
  }

  lemma EntryReclaimed(w: Name, l: Local, t: Task, running: bool, nextId: nat, id: nat, upper: Layer)
    requires LocalSound(w, l, t, running, nextId) && WorkerAt(l, id, Storage)
    ensures LocalSound(w, l.(files := l.files.(upper := upper)), t, running, nextId)
  {
    hide LocalSound;
    WorkerAdvances(w, l, t, running, nextId, id, l.files.(upper := upper), Storage);
    assert l.workers[id := Storage] == l.workers;
  }

  lemma TombsCleared(w: Name, l: Local, t: Task, running: bool, nextId: nat, id: nat)
    requires LocalSound(w, l, t, running, nextId) && WorkerAt(l, id, Tombs)
    ensures LocalSound(w, l.(files := l.files.(tombs := {}), workers := l.workers[id := ReclaimAt.Record]), t, running,
                       nextId)
  {
    assert l.files.upper == map[];
    WorkerAdvances(w, l, t, running, nextId, id, l.files.(tombs := {}), ReclaimAt.Record);
  }

  predicate RemovalStep(step: Step) {
    step.RemoveBegin? || step.RemoveRefused? || step.RemoveSave? || step.RemoveStart?
  }

  predicate ReclaimStep(step: Step) {
    || step.ReclaimGit? || step.ReclaimEntry?
    || step.ReclaimStorage? || step.ReclaimTombs? || step.ReclaimRecord? || step.ReclaimRow? || step.ReclaimFails?
  }

  // ----- calls and recovery -----

  lemma CallBegun(w: Name, l: Local, t: Task, running: bool, nextId: nat, op: Operation)
    requires LocalSound(w, l, t, running, nextId) && l.engine && l.call.None? && !t.Removal?
    requires op.id == nextId && op.workspace == w && !Lifecycle(op.kind) && SoundRow(op)
    ensures LocalSound(w, l.(rows := l.rows[op.id := op], call := Some(op.id), touched := true), t, running, nextId + 1)
  {
    hide Pending, RemovalPending, IsFresh, IsPointed;
  }

  lemma CallWorked(w: Name, l: Local, t: Task, running: bool, nextId: nat, upper: Layer, stages: map<nat, Layer>)
    requires LocalSound(w, l, t, running, nextId) && l.engine && !t.Removal?
    ensures LocalSound(w, l.(files := l.files.(upper := upper, stages := stages), touched := true), t, running, nextId)
  {
    hide Pending, RemovalPending, IsFresh, IsPointed, RowsSound;
    SameRows(w, l, l.(files := l.files.(upper := upper, stages := stages), touched := true), t, t, running, nextId);
  }

  lemma CallPublished(w: Name, l: Local, t: Task, running: bool, nextId: nat)
    requires LocalSound(w, l, t, running, nextId) && l.call.Some?
    ensures LocalSound(w, l.(rows := if l.call.value in l.rows
                             then l.rows[l.call.value := l.rows[l.call.value].(phase := Publishing)]
                               else l.rows), t, running, nextId)
  {
    hide Pending, RemovalPending, IsFresh, IsPointed;
  }

  lemma CallEnded(w: Name, l: Local, t: Task, running: bool, nextId: nat, tombs: set<Path>)
    requires LocalSound(w, l, t, running, nextId) && l.call.Some?
    ensures LocalSound(w, l.(files := l.files.(tombs := tombs), rows := l.rows - {l.call.value}, call := None), t,
                       running, nextId)
  {
    hide Pending, RemovalPending, IsFresh, IsPointed;
  }

  lemma RowSettled(w: Name, l: Local, nextId: nat, row: Operation, mode: Mode)
    requires LocalSound(w, l, Idle, false, nextId) && row.id in l.rows && l.rows[row.id] == row
    requires Lifecycle(row.kind) || SettleOp(l.files, row, mode).Ok?
    ensures LocalSound(w, Settled(l, row, mode), Idle, false, nextId)
  {
    hide SettleOp, LocalSound;
    RowsOfActive(w, l, nextId, row);
    if !Lifecycle(row.kind) {
      RowGone(w, l, nextId, row, SettleOp(l.files, row, mode).value, l.record);
    } else if row.kind.WorkspaceCreate? {
      RowGone(w, l, nextId, row, if l.record == Some(Active) then l.files else NoFiles().(tombs := l.files.tombs),
              if l.record == Some(Active) || l.record.None? then l.record else Some(Reclaimed));
    } else if l.record.None? || l.record == Some(Active) {
      RowGone(w, l, nextId, row, l.files, l.record);
    } else {
      RowGone(w, l, nextId, row, NoFiles(), Some(Reclaimed));
    }
  }

  // A settled row goes, with the files and the record it leaves.
  lemma RowGone(w: Name, l: Local, nextId: nat, row: Operation, files: Files, record: Option<RecordState>)
    requires LocalSound(w, l, Idle, false, nextId) && row.id in l.rows && l.rows[row.id] == row
    requires record == l.record || (l.record.Some? && l.record != Some(Active) && record == Some(Reclaimed))
    requires l.record == Some(Creating) && row.kind.WorkspaceCreate? ==> record == Some(Reclaimed)
    requires l.record == Some(Removed) && row.kind.WorkspaceRemove? ==> record == Some(Reclaimed)
    requires record == l.record && record != Some(Active) ==>
      files.tombs <= l.files.tombs && Shrunk(l.files.upper, files.upper)
    requires record != l.record ==>
      files.upper == map[] && (l.record == Some(Removed) ==> files.tombs == {}) && files.tombs <= l.files.tombs
    ensures LocalSound(w, l.(files := files, record := record, rows := l.rows - {row.id}), Idle, false, nextId)
  {
    hide IsFresh, IsPointed, Pending, RemovalPending;
    assert Shrunk(l.files.upper, files.upper) && l.files.upper == map[] ==> files.upper == map[];
    if !row.kind.WorkspaceCreate? { PendingKept(l.rows, row.id, WorkspaceCreate); }
    if !row.kind.WorkspaceRemove? { StillPending(l.rows, l.workers, row.id); }
  }

  lemma StillPending(rows: map<nat, Operation>, workers: map<nat, ReclaimAt>, gone: nat)
    requires gone in rows && !rows[gone].kind.WorkspaceRemove?
    ensures RemovalPending(rows, workers) ==> RemovalPending(rows - {gone}, workers)
  {
    if RemovalPending(rows, workers) {
      var i :| i in rows && rows[i].kind.WorkspaceRemove? && !(i in workers && workers[i].Row?);
      assert i in rows - {gone};
    }
  }

  // Recovery has done part of what a row asks for.
  lemma PartlySettled(w: Name, l: Local, nextId: nat, files: Files, record: Option<RecordState>)
    requires LocalSound(w, l, Idle, false, nextId)
      && (record == l.record || (l.record.Some? && l.record != Some(Active) && record == Some(Reclaimed)))
    requires l.record != Some(Active) ==> Shrunk(l.files.upper, files.upper) && files.tombs <= l.files.tombs
    requires record != l.record ==> files.upper == map[] && (l.record == Some(Removed) ==> files.tombs == {})
    requires record != l.record ==> forall i | i in l.rows && !Lifecycle(l.rows[i].kind) :: record == Some(Active)
    ensures LocalSound(w, l.(files := files, record := record), Idle, false, nextId)
  {
    hide Pending, RemovalPending, IsFresh, IsPointed;
  }

  lemma CallStepKeeps(w: Name, l: Local, t: Task, idle: bool, running: bool, nextId: nat, step: Step, mode: Mode)
    requires LocalSound(w, l, t, running, nextId) && Enabled(w, l, t, idle, running, nextId, step, mode)
    requires (idle ==> t.Idle?) && (step.CallBegin? || step.CallWork? || step.CallPublish? || step.CallEnd?)
    ensures LocalSound(w, NextLocal(w, l, t, idle, running, nextId, step, mode), NextTask(w, t, nextId, step), running,
                       NextIds(nextId, step))
  {
    hide LocalSound, SettleOp, Settled, Shrunk, NextTask;
    TaskStays(w, t, nextId, step);
    match step
    case CallBegin(op) => CallBegun(w, l, t, running, nextId, op);
    case CallWork(upper, stages) => CallWorked(w, l, t, running, nextId, upper, stages);
    case CallPublish => CallPublished(w, l, t, running, nextId);
    case CallEnd(tombs) => CallEnded(w, l, t, running, nextId, tombs);
  }

  lemma SettlingKeeps(w: Name, l: Local, t: Task, idle: bool, running: bool, nextId: nat, step: Step, mode: Mode)
    requires LocalSound(w, l, t, running, nextId) && Enabled(w, l, t, idle, running, nextId, step, mode)
    requires (idle ==> t.Idle?) && (step.Settle? || step.SettleEntry? || step.SettleTombs? || step.SettleRecord?)
    ensures LocalSound(w, NextLocal(w, l, t, idle, running, nextId, step, mode), NextTask(w, t, nextId, step), running,
                       NextIds(nextId, step))
  {
    hide LocalSound, SettleOp, Settled, Shrunk, NextTask;
    TaskStays(w, t, nextId, step);
    IdleWhenDown(w, l, t, running, nextId);
    match step
    case Settle(row) => RowSettled(w, l, nextId, row, mode);
    case SettleEntry(row, upper, stages) => EntrySettled(w, l, nextId, row, l.files.(upper := upper, stages := stages));
    case SettleTombs(row) => TombsSettled(w, l, nextId);
    case SettleRecord(row) => RecordSettled(w, l, nextId, row);
  }

  lemma EntrySettled(w: Name, l: Local, nextId: nat, row: Operation, files: Files)
    requires LocalSound(w, l, Idle, false, nextId) && row.id in l.rows && l.rows[row.id] == row
      && files.tombs == l.files.tombs
    requires Lifecycle(row.kind) ==> l.record != Some(Active) && Shrunk(l.files.upper, files.upper)
    ensures LocalSound(w, l.(files := files), Idle, false, nextId)
  {
    hide LocalSound;
    RowsOfActive(w, l, nextId, row);
    PartlySettled(w, l, nextId, files, l.record);
  }

  lemma TombsSettled(w: Name, l: Local, nextId: nat)
    requires LocalSound(w, l, Idle, false, nextId) && l.record == Some(Removed)
    ensures LocalSound(w, l.(files := l.files.(tombs := {})), Idle, false, nextId)
  {
    hide LocalSound;
    PartlySettled(w, l, nextId, l.files.(tombs := {}), l.record);
  }

  lemma RecordSettled(w: Name, l: Local, nextId: nat, row: Operation)
    requires LocalSound(w, l, Idle, false, nextId) && row.id in l.rows && l.rows[row.id] == row && Lifecycle(row.kind)
    requires l.record.Some? && l.record != Some(Active) && l.files.upper == map[]
      && (row.kind.WorkspaceRemove? ==> l.files.tombs == {})
    ensures LocalSound(w, l.(record := Some(Reclaimed)), Idle, false, nextId)
  {
    hide LocalSound;
    RowsOfActive(w, l, nextId, row);
    PartlySettled(w, l, nextId, l.files, Some(Reclaimed));
  }

  lemma TaskStays(w: Name, t: Task, nextId: nat, step: Step)
    requires !CreationStep(step) && !RemovalStep(step)
    ensures NextTask(w, t, nextId, step) == t
  {
  }

  lemma IdleWhenDown(w: Name, l: Local, t: Task, running: bool, nextId: nat)
    requires LocalSound(w, l, t, running, nextId)
    ensures !running ==> t.Idle?
  {
    hide RowsSound, RecordSound, WorkersSound;
  }

  // A row of a call belongs to an Active record.
  lemma RowsOfActive(w: Name, l: Local, nextId: nat, row: Operation)
    requires LocalSound(w, l, Idle, false, nextId) && row.id in l.rows && l.rows[row.id] == row
    ensures !Lifecycle(row.kind) ==> l.record == Some(Active)
    ensures l.record != Some(Active) ==> forall i | i in l.rows :: Lifecycle(l.rows[i].kind)
    ensures row.kind.WorkspaceCreate? ==> l.record != Some(Removed)
  {
    hide RecordSound, TaskSound, WorkersSound, VolatileSound;
  }

  /** Every step keeps the invariant of the name it concerns. */
  lemma StepKeepsLocal(w: Name, l: Local, t: Task, idle: bool, running: bool, nextId: nat, step: Step, mode: Mode)
    requires LocalSound(w, l, t, running, nextId) && Enabled(w, l, t, idle, running, nextId, step, mode)
    requires idle ==> t.Idle?
    ensures LocalSound(w, NextLocal(w, l, t, idle, running, nextId, step, mode), NextTask(w, t, nextId, step), running,
                       NextIds(nextId, step))
  {
    hide LocalSound, Enabled, NextLocal, NextTask, NextIds;
    if CreationStep(step) {
      CreationStepKeeps(w, l, t, idle, running, nextId, step, mode);
    } else if RemovalStep(step) {
      RemovalStepKeeps(w, l, t, idle, running, nextId, step, mode);
    } else if ReclaimStep(step) {
      ReclaimStepKeeps(w, l, t, idle, running, nextId, step, mode);
    } else if step.CallBegin? || step.CallWork? || step.CallPublish? || step.CallEnd? {
      CallStepKeeps(w, l, t, idle, running, nextId, step, mode);
    } else {
      SettlingKeeps(w, l, t, idle, running, nextId, step, mode);
    }
  }

  // No call has touched the files since the Active commit.
  ghost predicate UntouchedSound(l: Local) {
    && (l.live && !l.touched ==> IsPointed(l.files))
    && (l.call.Some? || (exists i :: i in l.rows && !Lifecycle(l.rows[i].kind)) ==> l.touched)
  }

  lemma CreationFacts(w: Name, l: Local, t: Task, running: bool, nextId: nat)
    requires LocalSound(w, l, t, running, nextId) && t.Creation?
    ensures t.at != Activated && t.at != Unrowed ==> !l.live
    ensures t.at == Pointed ==> IsPointed(l.files) && l.call.None? && forall i | i in l.rows ::
      Lifecycle(l.rows[i].kind)
  {
    hide Pending, RemovalPending, IsFresh, IsPointed, WorkersSound;
  }

  lemma WorkerFacts(w: Name, l: Local, t: Task, running: bool, nextId: nat)
    requires LocalSound(w, l, t, running, nextId)
    ensures forall id | id in l.workers && l.workers[id] != Row :: !l.live
    ensures t.Removal? ==> t.id in l.rows && Lifecycle(l.rows[t.id].kind)
  {
    hide Pending, RemovalPending, IsFresh, IsPointed, RowsSound, VolatileSound;
  }

  lemma UntouchedCreating(w: Name, l: Local, t: Task, idle: bool, running: bool, nextId: nat, step: Step, mode: Mode)
    requires LocalSound(w, l, t, running, nextId) && Enabled(w, l, t, idle, running, nextId, step, mode)
      && UntouchedSound(l)
    requires CreationStep(step)
    ensures UntouchedSound(NextLocal(w, l, t, idle, running, nextId, step, mode))
  {
    hide LocalSound, IsPointed;
    if t.Creation? { CreationFacts(w, l, t, running, nextId); }
  }

  lemma UntouchedSettling(w: Name, l: Local, t: Task, idle: bool, running: bool, nextId: nat, step: Step, mode: Mode)
    requires LocalSound(w, l, t, running, nextId) && Enabled(w, l, t, idle, running, nextId, step, mode)
      && UntouchedSound(l)
    requires step.Settle? || step.SettleEntry? || step.SettleTombs? || step.SettleRecord?
    ensures UntouchedSound(NextLocal(w, l, t, idle, running, nextId, step, mode))
  {
    hide SettleOp, Pending, RemovalPending, IsPointed, TaskSound, WorkersSound;
  }

  lemma UntouchedElsewise(w: Name, l: Local, t: Task, idle: bool, running: bool, nextId: nat, step: Step, mode: Mode)
    requires LocalSound(w, l, t, running, nextId) && Enabled(w, l, t, idle, running, nextId, step, mode)
      && UntouchedSound(l)
    requires !CreationStep(step) && !step.Settle? && !step.SettleEntry? && !step.SettleTombs? && !step.SettleRecord?
    ensures UntouchedSound(NextLocal(w, l, t, idle, running, nextId, step, mode))
  {
    hide LocalSound, Settled, IsPointed;
    WorkerFacts(w, l, t, running, nextId);
  }

  lemma UntouchedKept(w: Name, l: Local, t: Task, idle: bool, running: bool, nextId: nat, step: Step, mode: Mode)
    requires LocalSound(w, l, t, running, nextId) && Enabled(w, l, t, idle, running, nextId, step, mode)
      && UntouchedSound(l)
    ensures UntouchedSound(NextLocal(w, l, t, idle, running, nextId, step, mode))
  {
    hide UntouchedSound, LocalSound, Enabled, NextLocal;
    if CreationStep(step) {
      UntouchedCreating(w, l, t, idle, running, nextId, step, mode);
    } else if step.Settle? || step.SettleEntry? || step.SettleTombs? || step.SettleRecord? {
      UntouchedSettling(w, l, t, idle, running, nextId, step, mode);
    } else {
      UntouchedElsewise(w, l, t, idle, running, nextId, step, mode);
    }
  }

  // ----- the whole Project -----

  datatype Move = Take(name: Name, step: Step) | Crash | Open

  ghost predicate CanMove(s: State, m: Move, mode: Mode) {
    match m
    case Take(w, step) => Enabled(w, s.Of(w), s.TaskOf(w), s.task.Idle?, s.running, s.nextId, step, mode)
    case Crash => true
    case Open => !s.running && forall w | w in s.names :: s.names[w].rows == map[]
  }

  // Nothing volatile outlives the process.
  function Down(l: Local): Local { l.(engine := false, call := None, workers := map[]) }

  // Opening creates an engine for every Active record.
  function Up(l: Local): Local { l.(engine := l.record == Some(Active)) }

  function After(s: State, m: Move, mode: Mode): State
    requires CanMove(s, m, mode)
  {
    match m
    case Take(w, step) =>
      State(s.names[w := NextLocal(w, s.Of(w), s.TaskOf(w), s.task.Idle?, s.running, s.nextId, step, mode)],
            NextIds(s.nextId, step), s.running,
            if s.task.Idle? || s.task.name == w then NextTask(w, s.TaskOf(w), s.nextId, step) else s.task)
    case Crash => State(map w | w in s.names :: Down(s.names[w]), s.nextId, false, Idle)
    case Open => State(map w | w in s.names :: Up(s.names[w]), s.nextId, true, Idle)
  }

  ghost predicate NameSound(s: State, w: Name) {
    LocalSound(w, s.Of(w), s.TaskOf(w), s.running, s.nextId) && UntouchedSound(s.Of(w))
  }

  // No journal id is used twice.
  ghost predicate IdsApart(s: State) {
    forall w, x, id | id in s.Of(w).rows && id in s.Of(x).rows :: w == x
  }

  ghost predicate Invariant(s: State) {
    IdsApart(s) && forall w :: NameSound(s, w)
  }

  lemma IdsGrow(w: Name, l: Local, t: Task, running: bool, n: nat, n': nat)
    requires LocalSound(w, l, t, running, n) && n <= n'
    ensures LocalSound(w, l, t, running, n')
  {
    hide RecordSound, TaskSound, WorkersSound, VolatileSound;
  }

  lemma CrashKeepsLocal(w: Name, l: Local, t: Task, running: bool, nextId: nat)
    requires LocalSound(w, l, t, running, nextId) && UntouchedSound(l)
    ensures LocalSound(w, Down(l), Idle, false, nextId) && UntouchedSound(Down(l))
  {
  }

  lemma OpenKeepsLocal(w: Name, l: Local, t: Task, nextId: nat)
    requires LocalSound(w, l, t, false, nextId) && UntouchedSound(l) && l.rows == map[]
    ensures LocalSound(w, Up(l), Idle, true, nextId) && UntouchedSound(Up(l))
  {
  }

  lemma TaskAfter(s: State, w: Name, step: Step, mode: Mode)
    requires CanMove(s, Take(w, step), mode)
    ensures After(s, Take(w, step), mode).TaskOf(w) == NextTask(w, s.TaskOf(w), s.nextId, step)
  {
    hide NextLocal;
    if !s.task.Idle? && s.task.name != w { assert !step.CreateBegin? && !step.RemoveBegin?; }
  }

  lemma RowIds(w: Name, l: Local, t: Task, idle: bool, running: bool, nextId: nat, step: Step, mode: Mode)
    requires Enabled(w, l, t, idle, running, nextId, step, mode)
    ensures forall id | id in NextLocal(w, l, t, idle, running, nextId, step, mode).rows :: id in l.rows || id == nextId
  {
    hide SettleOp, Settled, LifecycleRow;
    if step.Settle? { SettledRows(l, step.row, mode); }
  }

  lemma IdsBelowNext(s: State, x: Name)
    requires NameSound(s, x)
    ensures forall id | id in s.Of(x).rows :: id < s.nextId
  {
    hide RecordSound, TaskSound, WorkersSound, VolatileSound, UntouchedSound;
  }

  lemma MoveKeepsIds(s: State, m: Move, mode: Mode)
    requires Invariant(s) && CanMove(s, m, mode)
    ensures IdsApart(After(s, m, mode))
  {
    hide NameSound, Enabled, NextLocal;
    var s' := After(s, m, mode);
    match m
    case Take(w, step) =>
      RowIds(w, s.Of(w), s.TaskOf(w), s.task.Idle?, s.running, s.nextId, step, mode);
      forall x ensures forall id | id in s.Of(x).rows :: id < s.nextId { IdsBelowNext(s, x); }
      forall x, y, id | id in s'.Of(x).rows && id in s'.Of(y).rows ensures x == y {
        assert x != w ==> id in s.Of(x).rows;
        assert y != w ==> id in s.Of(y).rows;
      }
    case _ =>
      forall x ensures s'.Of(x).rows == s.Of(x).rows {}
  }

  /** One move of the Project keeps every name's invariant, and the ids of all rows distinct. */
  lemma MoveKeeps(s: State, m: Move, mode: Mode)
    requires Invariant(s) && CanMove(s, m, mode)
    ensures Invariant(After(s, m, mode))
  {
    hide LocalSound, UntouchedSound, Enabled, NextLocal, IdsApart;
    MoveKeepsIds(s, m, mode);
    var s' := After(s, m, mode);
    forall x ensures NameSound(s', x) {
      assert NameSound(s, x);
      match m
      case Take(w, step) =>
        assert NameSound(s, w);
        if x == w {
          StepKeepsLocal(w, s.Of(w), s.TaskOf(w), s.task.Idle?, s.running, s.nextId, step, mode);
          UntouchedKept(w, s.Of(w), s.TaskOf(w), s.task.Idle?, s.running, s.nextId, step, mode);
          TaskAfter(s, w, step, mode);
        } else {
          IdsGrow(x, s.Of(x), s.TaskOf(x), s.running, s.nextId, s'.nextId);
          assert s'.Of(x) == s.Of(x) && s'.TaskOf(x) == s.TaskOf(x);
        }
      case Crash => CrashKeepsLocal(x, s.Of(x), s.TaskOf(x), s.running, s.nextId);
      case Open =>
        OpenKeepsLocal(x, s.Of(x), s.TaskOf(x), s.nextId);
        assert s'.Of(x) == Up(s.Of(x));
    }
  }

  /** After opening exactly the Active Workspaces can be called. */
  lemma OpeningServes(s: State, w: Name, op: Operation, mode: Mode)
    requires CanMove(s, Open, mode) && op.id == s.nextId && op.workspace == w && !Lifecycle(op.kind) && SoundRow(op)
    requires Invariant(s)
    ensures CanMove(After(s, Open, mode), Take(w, CallBegin(op)), mode) <==> s.Of(w).record == Some(Active)
  {
    hide RowsSound, RecordSound, TaskSound, WorkersSound;
    assert NameSound(s, w);
  }

  // ----- what every reachable state promises -----

  // A Project that was just configured.
  ghost predicate Initial(s: State) { s.names == map[] && s.task.Idle? }

  ghost predicate Run(run: seq<State>, moves: seq<Move>, mode: Mode) {
    && |run| == |moves| + 1 && Initial(run[0])
    && forall i | 0 <= i < |moves| :: CanMove(run[i], moves[i], mode) && run[i + 1] == After(run[i], moves[i], mode)
  }

  lemma {:induction false} ReachableSound(run: seq<State>, moves: seq<Move>, mode: Mode)
    requires Run(run, moves, mode)
    ensures Invariant(run[|run| - 1])
    decreases |moves|
  {
    hide NameSound, After, CanMove;
    if moves == [] {
      forall w ensures NameSound(run[0], w) { UnusedSound(run[0], w); }
    } else {
      var n := |moves| - 1;
      assert Run(run[..n + 1], moves[..n], mode);
      ReachableSound(run[..n + 1], moves[..n], mode);
      MoveKeeps(run[n], moves[n], mode);
    }
  }

  lemma UnusedSound(s: State, w: Name)
    requires Initial(s)
    ensures NameSound(s, w)
  {
  }

  /**
    In every reachable state: an unfinished record has its journal row, an unused name hides
    nothing, Active means activated and not removed, and at most one call is unsettled.
   */
  lemma ReachablePromises(run: seq<State>, moves: seq<Move>, mode: Mode, w: Name)
    requires Run(run, moves, mode)
    ensures var l := run[|run| - 1].Of(w);
            && (l.record == Some(Creating) ==> Pending(l.rows, WorkspaceCreate))
            && (l.record == Some(Removed) ==> Pending(l.rows, WorkspaceRemove))
            && (l.record == Some(Reclaimed) || l.record.None? ==> l.files.upper == map[] && l.files.tombs == {})
            && (l.record == Some(Active) <==> l.live)
            && (forall i, j | i in l.rows && j in l.rows && !Lifecycle(l.rows[i].kind) && !Lifecycle(l.rows[j].kind) ::
                i == j)
  {
    ReachableSound(run, moves, mode);
    assert NameSound(run[|run| - 1], w);
  }

  // The Base state under the upper root's mode, and a .git file.
  ghost predicate IsBaseWithPointer(v: Tree, base: Layer) {
    exists root: Node, git: Node :: root.Dir? && git.File? && v == Strip(base)[[] := root][[GIT_DIR] := git]
  }

  /** Whatever happened before, a Workspace that no call has touched shows the Base state and its .git file. */
  lemma UntouchedShowsBase(s: State, w: Name, base: Layer)
    requires Invariant(s) && s.Of(w).live && !s.Of(w).touched
    requires WellFormed(base) && forall q | q in base :: !AtOrUnder(q, [GIT_DIR])
    ensures var o := Overlay(base, s.Of(w).files.upper, s.Of(w).files.tombs);
            o.Sound() && IsBaseWithPointer(o.View(), base)
  {
    assert NameSound(s, w);
    PointedShowsBase(s.Of(w).files, base);
  }

  lemma PointedShowsBase(f: Files, base: Layer)
    requires IsPointed(f)
    requires WellFormed(base) && forall q | q in base :: !AtOrUnder(q, [GIT_DIR])
    ensures var o := Overlay(base, f.upper, f.tombs);
            o.Sound() && IsBaseWithPointer(o.View(), base)
  {
    var root: Inode, git: Inode :| root.node.Dir? && git.node.File? && f.upper == PointedUpper(root, git)
      && f.tombs == {};
    var o := Overlay(base, f.upper, f.tombs);
    PointedIsSound(root, git, base);
    PointedView(root, git, base);
    assert root.node.Dir? && git.node.File? && o.View() == Strip(base)[[] := root.node][[GIT_DIR] := git.node];
  }

  lemma PointedIsSound(root: Inode, git: Inode, base: Layer)
    requires root.node.Dir? && git.node.File? && WellFormed(base) && forall q | q in base :: !AtOrUnder(q, [GIT_DIR])
    ensures Overlay(base, PointedUpper(root, git), {}).Sound()
  {
    var upper := PointedUpper(root, git);
    forall p, q | p in upper && Under(p, q) ensures q in upper && upper[q].node.Dir? {
      assert p == [GIT_DIR] && q == [];
    }
    forall p | p in upper && !upper[p].node.Dir? ensures p == [GIT_DIR] {}
  }

  lemma PointedView(root: Inode, git: Inode, base: Layer)
    ensures Overlay(base, PointedUpper(root, git), {}).View() == Strip(base)[[] := root.node][[GIT_DIR] := git.node]
  {
    var o := Overlay(base, PointedUpper(root, git), {});
    assert forall p :: Unhidden({}, p);
  }

  // ----- recovery seen from here -----

  function RecordIn(p: Project, w: Name): Option<RecordState> {
    if w in p.records then Some(p.records[w]) else None
  }

  predicate HasThisRow(l: Local, row: Operation) { row.id in l.rows && l.rows[row.id] == row }

  // The Project that recovery loads: records, files, and all rows in the order of their ids.
  ghost predicate Represents(p: Project, s: State) {
    && (forall w :: p.At(w) == s.Of(w).files)
    && (forall w :: RecordIn(p, w) == s.Of(w).record)
    && RowsListed(p.journal, s)
  }

  ghost predicate RowsListed(journal: seq<Operation>, s: State) {
    && (forall i, j | 0 <= i < j < |journal| :: journal[i].id < journal[j].id)
    && (forall i | 0 <= i < |journal| :: HasThisRow(s.Of(journal[i].workspace), journal[i]))
    && (forall w, id | id in s.Of(w).rows :: s.Of(w).rows[id] in journal)
  }

  // The rows below n, as one journal.
  ghost function RowWith(s: State, id: nat): Option<Operation> {
    if exists w :: w in s.names && id in s.names[w].rows
    then var w :| w in s.names && id in s.names[w].rows; Some(s.names[w].rows[id])
    else None
  }

  ghost function JournalBelow(s: State, n: nat): seq<Operation> {
    if n == 0 then []
    else match RowWith(s, n - 1)
      case None => JournalBelow(s, n - 1)
      case Some(row) => JournalBelow(s, n - 1) + [row]
  }

  lemma TheRow(s: State, w: Name, id: nat)
    requires Invariant(s) && id in s.Of(w).rows
    ensures RowWith(s, id) == Some(s.Of(w).rows[id])
    ensures id < s.nextId && s.Of(w).rows[id].id == id && s.Of(w).rows[id].workspace == w && SoundRow(s.Of(w).rows[id])
  {
    hide RecordSound, TaskSound, WorkersSound, VolatileSound, UntouchedSound;
    assert NameSound(s, w);
    var x :| x in s.names && id in s.names[x].rows && RowWith(s, id) == Some(s.names[x].rows[id]);
    assert id in s.Of(x).rows;
  }

  lemma SomeRow(s: State, id: nat)
    requires Invariant(s) && RowWith(s, id).Some?
    ensures RowWith(s, id).value.id == id && HasThisRow(s.Of(RowWith(s, id).value.workspace), RowWith(s, id).value)
  {
    hide Invariant;
    var w :| w in s.names && id in s.names[w].rows;
    assert id in s.Of(w).rows;
    TheRow(s, w, id);
  }

  // The rows with ids below n, in their order.
  ghost predicate ListedBelow(journal: seq<Operation>, s: State, n: nat) {
    && (forall i, j | 0 <= i < j < |journal| :: journal[i].id < journal[j].id)
    && (forall i | 0 <= i < |journal| :: journal[i].id < n && HasThisRow(s.Of(journal[i].workspace), journal[i]))
    && (forall w, id | id in s.Of(w).rows && id < n :: s.Of(w).rows[id] in journal)
  }

  lemma {:induction false} JournalIsListed(s: State, n: nat)
    requires Invariant(s)
    ensures ListedBelow(JournalBelow(s, n), s, n)
  {
    hide Invariant, RowWith;
    if n > 0 {
      hide ListedBelow;
      JournalIsListed(s, n - 1);
      OneMoreRow(JournalBelow(s, n - 1), s, n - 1);
    }
  }

  lemma OneMoreRow(journal: seq<Operation>, s: State, n: nat)
    requires Invariant(s) && ListedBelow(journal, s, n)
    ensures ListedBelow(match RowWith(s, n) case None => journal case Some(row) => journal + [row], s, n + 1)
  {
    hide Invariant, RowWith;
    if RowWith(s, n).Some? { SomeRow(s, n); }
    forall w | n in s.Of(w).rows ensures RowWith(s, n) == Some(s.Of(w).rows[n]) { TheRow(s, w, n); }
  }

  /** Every sound state has a Project that represents it, with one journal in the order of ids. */
  lemma HasProject(s: State) returns (p: Project)
    requires Invariant(s)
    ensures Represents(p, s)
  {
    hide Invariant, JournalBelow;
    var journal := JournalBelow(s, s.nextId);
    var named := map w | w in s.names && s.names[w].record.Some? :: s.names[w].record.value;
    p := Project(map w | w in s.names :: s.names[w].files, named, journal);
    JournalIsListed(s, s.nextId);
    forall w, id | id in s.Of(w).rows ensures s.Of(w).rows[id] in journal { TheRow(s, w, id); }
  }

  /** ... and the rows of that journal are sound. */
  lemma JournalIsSound(p: Project, s: State)
    requires Represents(p, s) && Invariant(s)
    ensures SoundRows(p.journal)
  {
    hide Invariant;
    forall i | 0 <= i < |p.journal| ensures SoundRow(p.journal[i]) {
      TheRow(s, p.journal[i].workspace, p.journal[i].id);
    }
  }

  // What a turn of the loop does to its own Workspace, and to another one.
  lemma SettleHeadAt(p: Project, l: Local, mode: Mode)
    requires p.journal != [] && SettleHead(p, mode).Ok?
    requires p.At(p.journal[0].workspace) == l.files && RecordIn(p, p.journal[0].workspace) == l.record
    ensures var q, row := SettleHead(p, mode).value, p.journal[0];
            && (Lifecycle(row.kind) || SettleOp(l.files, row, mode).Ok?)
            && q.At(row.workspace) == Settled(l, row, mode).files
                 && RecordIn(q, row.workspace) == Settled(l, row, mode).record
  {
    hide SettleOp, Project.Put, Project.Reclaim, Project.At;
    var row, w := p.journal[0], p.journal[0].workspace;
    if row.kind.WorkspaceCreate? {
      hide RecordIn;
      SettleCreationAt(p, l, mode);
    } else if row.kind.WorkspaceRemove? {
      hide RecordIn;
      SettleRemovalAt(p, l, mode);
    } else {
      PutAt(p, w, SettleOp(l.files, row, mode).value);
    }
  }

  lemma SettleCreationAt(p: Project, l: Local, mode: Mode)
    requires p.journal != [] && p.journal[0].kind.WorkspaceCreate?
    requires p.At(p.journal[0].workspace) == l.files && RecordIn(p, p.journal[0].workspace) == l.record
    ensures var q, row := SettleHead(p, mode).value, p.journal[0];
            q.At(row.workspace) == Settled(l, row, mode).files
              && RecordIn(q, row.workspace) == Settled(l, row, mode).record
  {
    PutAt(p, p.journal[0].workspace, NoFiles().(tombs := l.files.tombs));
    hide SettleOp, Project.Put, Project.Reclaim, Project.At;
  }

  lemma SettleRemovalAt(p: Project, l: Local, mode: Mode)
    requires p.journal != [] && p.journal[0].kind.WorkspaceRemove?
    requires p.At(p.journal[0].workspace) == l.files && RecordIn(p, p.journal[0].workspace) == l.record
    ensures var q, row := SettleHead(p, mode).value, p.journal[0];
            q.At(row.workspace) == Settled(l, row, mode).files
              && RecordIn(q, row.workspace) == Settled(l, row, mode).record
  {
    PutAt(p, p.journal[0].workspace, NoFiles());
    hide SettleOp, Project.Put, Project.Reclaim, Project.At;
  }

  lemma PutAt(p: Project, w: Name, f: Files)
    requires p.journal != []
    ensures p.Put(w, f).Dropped().At(w) == f && p.Put(w, f).Reclaim(w).Dropped().At(w) == f
      && p.Dropped().At(w) == p.At(w)
    ensures RecordIn(p.Dropped(), w) == RecordIn(p.Put(w, f).Dropped(), w) == RecordIn(p, w)
    ensures RecordIn(p.Put(w, f).Reclaim(w).Dropped(), w) == if w in p.records then Some(Reclaimed) else None
  {
  }

  lemma SettleHeadElsewhere(p: Project, x: Name, mode: Mode)
    requires p.journal != [] && SettleHead(p, mode).Ok? && p.journal[0].workspace != x
    ensures var q := SettleHead(p, mode).value;
            q.At(x) == p.At(x) && RecordIn(q, x) == RecordIn(p, x)
  {
    hide SettleOp;
  }

  lemma SettleHeadRows(p: Project, mode: Mode)
    requires p.journal != [] && SettleHead(p, mode).Ok?
    ensures SettleHead(p, mode).value.journal == p.journal[1..]
  {
    hide SettleOp;
  }

  lemma RepresentedAt(p: Project, s: State, w: Name)
    requires Represents(p, s)
    ensures p.At(w) == s.Of(w).files && RecordIn(p, w) == s.Of(w).record
    ensures p.journal != [] && p.journal[0].workspace == w ==> HasThisRow(s.Of(w), p.journal[0])
  {
  }

  lemma RowsNamed(p: Project, s: State)
    requires Represents(p, s) && Invariant(s)
    ensures RowsListed(p.journal, s)
    ensures forall w, id | id in s.Of(w).rows :: s.Of(w).rows[id].id == id && s.Of(w).rows[id].workspace == w
  {
    forall w, id | id in s.Of(w).rows ensures s.Of(w).rows[id].id == id && s.Of(w).rows[id].workspace == w {
      assert NameSound(s, w);
    }
  }

  lemma SettleEnabled(p: Project, s: State, mode: Mode)
    requires Represents(p, s) && !s.running && p.journal != [] && SettleHead(p, mode).Ok?
    ensures CanMove(s, Take(p.journal[0].workspace, Settle(p.journal[0])), mode)
  {
    hide SettleOp, SettleHead, Represents;
    var w := p.journal[0].workspace;
    RepresentedAt(p, s, w);
    SettleHeadAt(p, s.Of(w), mode);
  }

  lemma SettledRows(l: Local, row: Operation, mode: Mode)
    requires Lifecycle(row.kind) || SettleOp(l.files, row, mode).Ok?
    ensures Settled(l, row, mode).live == l.live && Settled(l, row, mode).rows == l.rows - {row.id}
  {
    hide SettleOp;
  }

  lemma SettledNext(s: State, w: Name, row: Operation, mode: Mode)
    requires CanMove(s, Take(w, Settle(row)), mode)
    ensures var s' := After(s, Take(w, Settle(row)), mode);
            && s'.running == s.running && s'.Of(w) == Settled(s.Of(w), row, mode)
                 && (forall x | x != w :: s'.Of(x) == s.Of(x))
            && s'.Of(w).live == s.Of(w).live && s'.Of(w).rows == s.Of(w).rows - {row.id}
  {
    hide SettleOp, Settled;
    SettledRows(s.Of(w), row, mode);
  }

  /** The recovery loop's turn is this machine's Settle step. */
  lemma SettleMatches(p: Project, s: State, mode: Mode)
    requires Represents(p, s) && Invariant(s) && !s.running && p.journal != [] && SettleHead(p, mode).Ok?
    requires CanMove(s, Take(p.journal[0].workspace, Settle(p.journal[0])), mode)
    ensures var s' := After(s, Take(p.journal[0].workspace, Settle(p.journal[0])), mode);
            Represents(SettleHead(p, mode).value, s') && !s'.running && forall w :: s'.Of(w).live == s.Of(w).live
  {
    hide Enabled, After, SettleHead, SettleOp, Settled, Represents, Invariant, RowsListed;
    var row, w := p.journal[0], p.journal[0].workspace;
    var q, s' := SettleHead(p, mode).value, After(s, Take(w, Settle(row)), mode);
    SettledNext(s, w, row, mode);
    RowsNamed(p, s);
    SettleHeadRows(p, mode);
    RowsAfterSettling(p.journal, s, s');
    RepresentedAt(p, s, w);
    SettleHeadAt(p, s.Of(w), mode);
    forall x ensures q.At(x) == s'.Of(x).files && RecordIn(q, x) == s'.Of(x).record {
      if x != w {
        RepresentedAt(p, s, x);
        SettleHeadElsewhere(p, x, mode);
      }
    }
    Represented(q, s');
  }

  lemma Represented(p: Project, s: State)
    requires forall w :: p.At(w) == s.Of(w).files && RecordIn(p, w) == s.Of(w).record
    requires RowsListed(p.journal, s)
    ensures Represents(p, s)
  {
  }

  lemma RowsAfterSettling(journal: seq<Operation>, s: State, s': State)
    requires journal != [] && RowsListed(journal, s)
    requires forall w, id | id in s.Of(w).rows :: s.Of(w).rows[id].id == id && s.Of(w).rows[id].workspace == w
    requires s'.Of(journal[0].workspace).rows == s.Of(journal[0].workspace).rows - {journal[0].id}
    requires forall x | x != journal[0].workspace :: s'.Of(x) == s.Of(x)
    ensures RowsListed(journal[1..], s')
  {
    var rest := journal[1..];
    forall i | 0 <= i < |rest| ensures HasThisRow(s'.Of(rest[i].workspace), rest[i]) {
      assert rest[i] == journal[i + 1] && HasThisRow(s.Of(journal[i + 1].workspace), journal[i + 1]);
    }
    forall w, id | id in s'.Of(w).rows ensures s'.Of(w).rows[id] in rest {
      assert s.Of(w).rows[id] in journal && s.Of(w).rows[id] != journal[0];
    }
  }

  // Active exactly if the Active commit happened and the Removed commit did not; otherwise at
  // most a Reclaimed record is left, and no files.
  ghost predicate Ended(p: Project, w: Name, live: bool) {
    if live then RecordIn(p, w) == Some(Active)
    else (RecordIn(p, w) == Some(Reclaimed) || RecordIn(p, w).None?) && p.At(w) == NoFiles()
  }

  lemma RecoveryEnded(p: Project, s: State, w: Name)
    requires Represents(p, s) && Invariant(s) && !s.running && p.journal == []
    ensures Ended(CleanedUp(p), w, s.Of(w).live)
  {
    RepresentedAt(p, s, w);
    assert NameSound(s, w) && s.Of(w).rows == map[] by { assert RowsListed(p.journal, s); }
    hide Represents, RowsListed;
    var l := s.Of(w);
    assert RecordSound(l) && !Pending(l.rows, WorkspaceCreate) && !RemovalPending(l.rows, l.workers);
    assert CleanedUp(p).At(w) == p.At(w).(stages := map[]);
    match l.record
    case None =>
    case Some(r) => assert r.Active? || r.Reclaimed?;
  }

  /** A successful recovery settles every row and ends every lifecycle. */
  lemma {:induction false} RecoveryEndsLifecycles(p: Project, s: State, mode: Mode)
    requires Represents(p, s) && Invariant(s) && !s.running && RecoverAll(p, mode).Ok?
    ensures var q := RecoverAll(p, mode).value;
            q.journal == [] && forall w :: Ended(q, w, s.Of(w).live)
    decreases |p.journal|
  {
    hide After, CanMove, SettleHead, Represents, Invariant, Ended;
    if p.journal == [] {
      forall w ensures Ended(CleanedUp(p), w, s.Of(w).live) { RecoveryEnded(p, s, w); }
    } else {
      var m := Take(p.journal[0].workspace, Settle(p.journal[0]));
      SettleEnabled(p, s, mode);
      SettleMatches(p, s, mode);
      MoveKeeps(s, m, mode);
      SettleHeadRows(p, mode);
      RecoveryEndsLifecycles(SettleHead(p, mode).value, After(s, m, mode), mode);
    }
  }

  // The record-state part of validate_project_storage_invariants.
  ghost predicate RecordsValid(p: Project) {
    p.journal == [] && forall w | w in p.records :: p.records[w] != Creating
  }

  /** So a successful recovery always passes that validation. */
  lemma RecoveryPassesValidation(p: Project, s: State, mode: Mode)
    requires Represents(p, s) && Invariant(s) && !s.running && RecoverAll(p, mode).Ok?
    ensures RecordsValid(RecoverAll(p, mode).value)
  {
    hide Represents, Invariant, RecoverAll;
    RecoveryEndsLifecycles(p, s, mode);
    var q := RecoverAll(p, mode).value;
    forall w | w in q.records ensures q.records[w] != Creating { assert Ended(q, w, s.Of(w).live); }
  }
}
