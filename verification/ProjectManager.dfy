/**
  create_workspace, remove_workspace and the reclaiming thread, each as the run of
  lifecycle steps that the code takes, with the faults its error paths know.
 */
module Manager {
  import opened Layers
  import opened Journal
  import opened ProjectRecovery
  import opened Lifecycle

  // Which of creation's steps fails.  Storage fails in three ways: the injected one is undone, the
  // real ones, before and after the upper directory exists, are not.
  datatype CreateFault = NoFault | JournalWrite | StateWrite | StorageRefused | StorageError | StorageFlush
                       | GitRegister | PointerWrite | ActiveWrite | RowDelete

  datatype RemoveFault = Smooth | NoJournal | NoRemoved

  // Where a reclaiming thread gives up; at storage it leaves up to `kept` entries behind.
  datatype ReclaimFault = Finishes | AtGit | AtStorage(kept: nat) | AtTombs | AtRecord | AtRow

  // What creation leaves of w's part.
  function CreationLeaves(l: Local, w: Name, id: nat, root: Inode, git: Inode, fault: CreateFault): Local {
    var row := LifecycleRow(id, WorkspaceCreate, w);
    match fault
    case JournalWrite => l
    case StateWrite => l
    case StorageError => l.(record := Some(Creating), rows := l.rows[id := row])
    case StorageFlush => l.(record := Some(Creating), rows := l.rows[id := row],
                            files := l.files.(upper := FreshUpper(root)))
    case RowDelete =>
      l.(record := Some(Active), live := true, touched := false, files := l.files.(upper := PointedUpper(root, git)),
         rows := l.rows[id := row])
    case NoFault =>
      l.(record := Some(Active), live := true, touched := false, files := l.files.(upper := PointedUpper(root, git)),
         engine := true)
    case _ => l.(record := Some(Reclaimed))
  }

  // The same from the Creating record on.
  function Built(l: Local, id: nat, root: Inode, git: Inode, fault: CreateFault): Local {
    var pointed := l.(record := Some(Active), live := true, touched := false,
                      files := l.files.(upper := PointedUpper(root, git)));
    match fault
    case StorageError => l
    case StorageFlush => l.(files := l.files.(upper := FreshUpper(root)))
    case RowDelete => pointed
    case NoFault => pointed.(rows := l.rows - {id}, engine := true)
    case _ => l.(record := Some(Reclaimed), rows := l.rows - {id})
  }

  // What a reclaiming thread leaves of w's part, given the upper entries it could not remove.
  function ReclamationLeaves(l: Local, id: nat, fault: ReclaimFault, rest: Layer): Local {
    var over := l.(workers := l.workers - {id});
    match fault
    case AtGit => over
    case AtStorage(_) => over.(files := l.files.(upper := rest))
    case AtTombs => over.(files := NoFiles().(tombs := l.files.tombs))
    case AtRecord => over.(files := NoFiles())
    case AtRow => over.(files := NoFiles(), record := Some(Reclaimed))
    case Finishes => over.(files := NoFiles(), record := Some(Reclaimed), rows := l.rows - {id})
  }

  lemma LeavesInTurn(l: Local, id: nat, fault: ReclaimFault)
    ensures fault.AtGit? ==> ReclamationLeaves(l, id, fault, map[]) == l.(workers := l.workers - {id})
  {
  }

  // From cleaned Git on, with `rest` of the upper tree.
  lemma LeavesRest(l: Local, id: nat, fault: ReclaimFault, rest: Layer)
    ensures var now := l.(files := l.files.(upper := rest), workers := l.workers[id := Storage]);
            && (fault.AtStorage? ==> ReclamationLeaves(l, id, fault, rest) == now.(workers := now.workers - {id}))
            && (!fault.AtGit? && !fault.AtStorage? ==>
                ReclamationLeaves(l, id, fault, rest) == ReclamationLeaves(now, id, fault, map[]))
  {
    assert l.workers[id := Storage] - {id} == l.workers - {id};
  }

  // From the emptied directory on.
  lemma LeavesRecords(l: Local, id: nat, fault: ReclaimFault)
    requires !fault.AtGit? && !fault.AtStorage?
    ensures var gone := l.(files := l.files.(upper := map[], stages := map[]), workers := l.workers[id := Tombs]);
            var cleared := gone.(files := gone.files.(tombs := {}), workers := gone.workers[id := ReclaimAt.Record]);
            var reported := cleared.(workers := cleared.workers - {id}, record := if fault.AtRecord?
                                     then cleared.record else Some(Reclaimed));
            ReclamationLeaves(l, id, fault, map[]) ==
              if fault.AtTombs? then gone.(workers := gone.workers - {id})
              else if fault.Finishes? then reported.(rows := cleared.rows - {id}) else reported
  {
    assert l.workers[id := Tombs] - {id} == l.workers - {id};
    assert l.workers[id := Tombs][id := ReclaimAt.Record] - {id} == l.workers - {id};
  }

  lemma NothingLeft(l: Local, w: Name, id: nat, root: Inode, git: Inode)
    ensures CreationLeaves(l, w, id, root, git, JournalWrite) == l
  {
  }

  lemma BuiltLeaves(l: Local, w: Name, id: nat, root: Inode, git: Inode, fault: CreateFault)
    requires id !in l.rows && fault != JournalWrite
    ensures var saved := l.(rows := l.rows[id := LifecycleRow(id, WorkspaceCreate, w)], record := Some(Creating));
            CreationLeaves(l, w, id, root, git, fault) == if fault == StateWrite then l
              else Built(saved, id, root, git, fault)
  {
    assert l.rows[id := LifecycleRow(id, WorkspaceCreate, w)] - {id} == l.rows;
  }

  lemma NewStorage(root: Inode)
    ensures [] in FreshUpper(root) && FreshUpper(root)[[]] == root
  {
  }

  // What each part of the building leaves is what Built says.
  lemma BuiltInTurn(l: Local, id: nat, root: Inode, git: Inode, fault: CreateFault)
    requires l.files.upper == map[] && fault != StateWrite && fault != JournalWrite
    ensures var stored, pointed := l.(files := l.files.(upper := FreshUpper(root))),
      l.(files := l.files.(upper := PointedUpper(root, git)));
            var active := pointed.(record := Some(Active), live := true, touched := false);
            Built(l, id, root, git, fault) ==
              match fault
              case StorageError => l
              case StorageFlush => stored
              case StorageRefused => l.(record := Some(Reclaimed), rows := l.rows - {id})
              case GitRegister => stored.(files := stored.files.(upper := map[]), record := Some(Reclaimed),
                                          rows := l.rows - {id})
              case PointerWrite => stored.(files := stored.files.(upper := map[]), record := Some(Reclaimed),
                                           rows := l.rows - {id})
              case ActiveWrite => pointed.(files := pointed.files.(upper := map[]), record := Some(Reclaimed),
                                           rows := l.rows - {id})
              case RowDelete => active
              case NoFault => active.(rows := l.rows - {id}, engine := true)
              case _ => l
  {
  }

  // A created Workspace is Active, has its pointer file, is served, and owes no row.
  ghost predicate Served(l: Local, m: Local, root: Inode, git: Inode) {
    && m.record == Some(Active) && m.engine && m.rows == l.rows
    && m.files == l.files.(upper := map[[] := root, [".git"] := git])
  }

  // The faults that creation undoes.
  predicate Injected(fault: CreateFault) {
    fault.StorageRefused? || fault.GitRegister? || fault.PointerWrite? || fault.ActiveWrite?
  }

  ghost predicate SameStorage(l: Local, m: Local) {
    m.files == l.files && m.rows == l.rows && !(m.record == Some(Creating) && l.record != Some(Creating))
  }

  ghost predicate CreationEnds(created: bool, fault: CreateFault, l: Local, m: Local, root: Inode, git: Inode) {
    (created ==> Served(l, m, root, git)) && (!created && Injected(fault) ==> SameStorage(l, m))
  }

  lemma CreationLeft(l: Local, w: Name, id: nat, root: Inode, git: Inode, fault: CreateFault)
    ensures CreationEnds(fault == NoFault, fault, l, CreationLeaves(l, w, id, root, git, fault), root, git)
    ensures CreationEnds(false, fault, l, l, root, git)
  {
  }

  lemma RemovalEnds(l: Local, w: Name, id: nat)
    ensures var m := RemovalLeaves(l, w, id);
            && m.record == Some(Removed) && !m.engine && m.files == l.files
            && id in m.rows && m.rows[id].kind.WorkspaceRemove? && id in m.workers && m.workers[id] == Git
  {
  }

  lemma ReclamationEnds(l: Local, id: nat)
    ensures forall rest ::
              var m := ReclamationLeaves(l, id, Finishes, rest);
              && m.record == Some(Reclaimed) && m.files.upper == map[] && m.files.stages == map[] && m.files.tombs == {}
              && id !in m.rows && id !in m.workers
  {
  }

  function RemovalLeaves(l: Local, w: Name, id: nat): Local {
    l.(record := Some(Removed), live := false, engine := false,
       rows := l.rows[id := LifecycleRow(id, WorkspaceRemove, w)], workers := l.workers[id := Git])
  }

  lemma RemovalLeft(l: Local, w: Name, id: nat)
    ensures l.(rows := l.rows[id := LifecycleRow(id, WorkspaceRemove, w)], record := Some(Removed), live := false,
               engine := false, workers := l.workers[id := Git])
         == RemovalLeaves(l, w, id)
  {
  }

  lemma ShrunkToNothing(a: Layer)
    ensures Shrunk(a, map[])
  {
  }

  lemma ShrunkSelf(a: Layer)
    ensures Shrunk(a, a)
  {
  }

  lemma ShrunkOn(a: Layer, b: Layer, c: Layer)
    requires Shrunk(a, b) && Shrunk(b, c)
    ensures Shrunk(a, c)
  {
  }

  class ProjectManager {
    const mode: Mode
    var state: State
    ghost var trace: seq<State>
    ghost var moves: seq<Move>

    constructor (mode: Mode)
      ensures Recorded() && this.mode == mode && state == State(map[], 0, true, Idle)
    {
      this.mode, state := mode, State(map[], 0, true, Idle);
      trace, moves := [State(map[], 0, true, Idle)], [];
    }

    // The past is a run of the machine, ending here.
    ghost predicate Recorded()
      reads this
    {
      Run(trace, moves, mode) && trace[|trace| - 1] == state
    }

    twostate predicate OnlyTouches(w: Name)
      reads this
    {
      state.running == old(state.running) && state.names - {w} == old(state.names) - {w}
    }

    method Step(w: Name, step: Step)
      requires Recorded() && CanMove(state, Take(w, step), mode)
      modifies this`state, this`trace, this`moves
      ensures Recorded() && OnlyTouches(w)
      ensures state == After(old(state), Take(w, step), mode)
      ensures state.Of(w) == NextLocal(w, old(state).Of(w), old(state).TaskOf(w), old(state).task.Idle?,
                                       old(state).running, old(state).nextId, step, mode)
      ensures state.TaskOf(w) == NextTask(w, old(state).TaskOf(w), old(state).nextId, step)
      ensures state.task.Idle? || state.task == state.TaskOf(w) || state.task == old(state).task
      ensures state.nextId == NextIds(old(state).nextId, step)
    {
      hide Enabled, NextLocal, NextTask;
      TaskAfter(state, w, step, mode);
      trace, moves := trace + [After(state, Take(w, step), mode)], moves + [Take(w, step)];
      state := After(state, Take(w, step), mode);
    }

    ghost predicate At(w: Name, id: nat, at: CreateAt)
      reads this
    {
      Recorded() && state.task == Creation(w, id, at) && state.TaskOf(w) == Creation(w, id, at)
    }

    method Begin(w: Name) returns (ghost id: nat)
      requires Recorded() && state.running && state.task.Idle? && !state.Of(w).engine
      requires state.Of(w).record.None? || state.Of(w).record == Some(Reclaimed)
      modifies this`state, this`trace, this`moves
      ensures id == old(state).nextId && At(w, id, Journaled) && OnlyTouches(w)
      ensures state.Of(w) == old(state).Of(w).(rows := old(state).Of(w).rows[id := LifecycleRow(id, WorkspaceCreate,
        w)])
    {
      id := state.nextId;
      Step(w, CreateBegin);
    }

    method Undo(w: Name, ghost id: nat)
      requires At(w, id, UndoRecord)
      modifies this`state, this`trace, this`moves
      ensures Recorded() && OnlyTouches(w) && state.task.Idle?
      ensures state.Of(w) == old(state).Of(w).(record := Some(Reclaimed), rows := old(state).Of(w).rows - {id})
    {
      UndoStep(w, id);
      hide After, Recorded;
      Step(w, CreateUndoRow);
    }

    method UndoStep(w: Name, ghost id: nat)
      requires At(w, id, UndoRecord)
      modifies this`state, this`trace, this`moves
      ensures At(w, id, UndoRow) && OnlyTouches(w)
      ensures state.Of(w) == old(state).Of(w).(record := Some(Reclaimed))
    {
      hide After, Recorded;
      Step(w, CreateUndoRecord);
    }

    method Rollback(w: Name, ghost id: nat)
      requires At(w, id, Stored) || At(w, id, Registered) || At(w, id, Pointed)
      modifies this`state, this`trace, this`moves
      ensures Recorded() && OnlyTouches(w) && state.task.Idle?
      ensures var l := old(state).Of(w);
              state.Of(w) == l.(files := l.files.(upper := map[]), record := Some(Reclaimed), rows := l.rows - {id})
    {
      hide After;
      Step(w, CreateFails);
      RemoveStorage(w, id);
    }

    method RemoveStorage(w: Name, ghost id: nat)
      requires At(w, id, UndoStorage)
      modifies this`state, this`trace, this`moves
      ensures Recorded() && OnlyTouches(w) && state.task.Idle?
      ensures var l := old(state).Of(w);
              state.Of(w) == l.(files := l.files.(upper := map[]), record := Some(Reclaimed), rows := l.rows - {id})
    {
      hide After;
      Step(w, CreateUndoStorage);
      Undo(w, id);
    }

    method Save(w: Name, ghost id: nat, fault: CreateFault) returns (saved: bool)
      requires At(w, id, Journaled)
      modifies this`state, this`trace, this`moves
      ensures Recorded() && OnlyTouches(w) && saved == (fault != StateWrite)
      ensures if saved then At(w, id, Saved) && state.Of(w) == old(state).Of(w).(record := Some(Creating))
              else state.task.Idle? && state.Of(w) == old(state).Of(w).(rows := old(state).Of(w).rows - {id})
    {
      hide After;
      if fault == StateWrite {
        Step(w, CreateSaveFails);
        return false;
      }
      Step(w, CreateSave);
      return true;
    }

    method Store(w: Name, ghost id: nat, root: Inode, fault: CreateFault) returns (stored: bool)
      requires At(w, id, Saved) && root.node.Dir?
      modifies this`state, this`trace, this`moves
      ensures Recorded() && OnlyTouches(w)
        && stored == (fault != StorageRefused && fault != StorageError && fault != StorageFlush)
      ensures var l := old(state).Of(w);
              if stored then At(w, id, Stored) && state.Of(w) == l.(files := l.files.(upper := FreshUpper(root)))
              else state.task.Idle? && state.Of(w) == if fault == StorageError then l
                                                      else if fault == StorageFlush
                                                        then l.(files := l.files.(upper := FreshUpper(root)))
                                                      else l.(record := Some(Reclaimed), rows := l.rows - {id})
    {
      hide After;
      if fault == StorageRefused {
        Step(w, CreateStoreFault);
        Undo(w, id);
        return false;
      }
      if fault == StorageError {
        Step(w, CreateStuck);
        return false;
      }
      Step(w, CreateStore(root));
      if fault == StorageFlush {
        Step(w, CreateStuck);
        return false;
      }
      return true;
    }

    method Register(w: Name, ghost id: nat, git: Inode, fault: CreateFault) returns (pointed: bool)
      requires At(w, id, Stored) && git.node.File? && [] in state.Of(w).files.upper
      modifies this`state, this`trace, this`moves
      ensures Recorded() && OnlyTouches(w) && pointed == (fault != GitRegister && fault != PointerWrite)
      ensures var l := old(state).Of(w);
              if pointed then
                && At(w, id, Pointed)
                && state.Of(w) == l.(files := l.files.(upper := PointedUpper(l.files.upper[[]], git)))
              else
                && state.task.Idle?
                && state.Of(w) == l.(files := l.files.(upper := map[]), record := Some(Reclaimed),
                                     rows := l.rows - {id})
    {
      hide After;
      if fault == GitRegister {
        Rollback(w, id);
        return false;
      }
      Step(w, CreateRegister);
      if fault == PointerWrite {
        Rollback(w, id);
        return false;
      }
      Step(w, CreatePoint(git));
      return true;
    }

    method Activate(w: Name, ghost id: nat, fault: CreateFault) returns (active: bool)
      requires At(w, id, Pointed)
      modifies this`state, this`trace, this`moves
      ensures Recorded() && OnlyTouches(w) && active == (fault != ActiveWrite)
      ensures var l := old(state).Of(w);
              if active then
                && At(w, id, Activated)
                && state.Of(w) == l.(record := Some(Active), live := true, touched := false)
              else
                && state.task.Idle?
                && state.Of(w) == l.(files := l.files.(upper := map[]), record := Some(Reclaimed),
                                     rows := l.rows - {id})
    {
      hide After;
      if fault == ActiveWrite {
        Rollback(w, id);
        return false;
      }
      Step(w, CreateActivate);
      return true;
    }

    method Publish(w: Name, ghost id: nat, fault: CreateFault) returns (open: bool)
      requires At(w, id, Activated)
      modifies this`state, this`trace, this`moves
      ensures Recorded() && OnlyTouches(w) && state.task.Idle? && open == (fault != RowDelete)
      ensures var l := old(state).Of(w); state.Of(w) == if open then l.(rows := l.rows - {id}, engine := true) else l
    {
      hide After;
      if fault == RowDelete {
        Step(w, CreateUnrowFails);
        return false;
      }
      Step(w, CreateUnrow);
      Reopen(w, id);
      return true;
    }

    method Reopen(w: Name, ghost id: nat)
      requires At(w, id, Unrowed)
      modifies this`state, this`trace, this`moves
      ensures Recorded() && OnlyTouches(w) && state.task.Idle?
      ensures state.Of(w) == old(state).Of(w).(engine := true)
    {
      hide After, Recorded;
      Step(w, CreateOpen);
    }

    // The journal row and the Creating record.
    method Start(w: Name, fault: CreateFault) returns (ghost id: nat, ok: bool)
      requires Recorded() && state.running && state.task.Idle? && !state.Of(w).engine
      requires state.Of(w).record.None? || state.Of(w).record == Some(Reclaimed)
      modifies this`state, this`trace, this`moves
      ensures Recorded() && OnlyTouches(w) && id == old(state).nextId && ok == (fault != StateWrite)
      ensures var l := old(state).Of(w);
              if ok then At(w, id, Saved)
                && state.Of(w) == l.(rows := l.rows[id := LifecycleRow(id, WorkspaceCreate, w)],
                                     record := Some(Creating))
              else state.task.Idle? && state.Of(w) == l
    {
      ghost var l := state.Of(w);
      FreeName(w);
      hide At, Recorded, LifecycleRow;
      id := Begin(w);
      assert state.Of(w).rows - {id} == l.rows;
      ok := Save(w, id, fault);
    }

    // Everything after the Creating record.
    method Build(w: Name, ghost id: nat, root: Inode, git: Inode, fault: CreateFault) returns (created: bool)
      requires At(w, id, Saved) && root.node.Dir? && git.node.File? && state.Of(w).files.upper == map[]
      requires fault != StateWrite && fault != JournalWrite
      modifies this`state, this`trace, this`moves
      ensures Recorded() && OnlyTouches(w) && state.task.Idle? && created == (fault == NoFault)
      ensures state.Of(w) == Built(old(state).Of(w), id, root, git, fault)
    {
      hide At, Recorded, Enabled, Built, FreshUpper, PointedUpper;
      ghost var l := state.Of(w);
      NewStorage(root);
      BuiltInTurn(l, id, root, git, fault);
      var ok := Store(w, id, root, fault);
      if !ok { return false; }
      ok := Register(w, id, git, fault);
      if !ok { return false; }
      created := Finish(w, id, fault);
    }

    // The Active record, the end of the row, the engine.
    method Finish(w: Name, ghost id: nat, fault: CreateFault) returns (created: bool)
      requires At(w, id, Pointed)
      modifies this`state, this`trace, this`moves
      ensures Recorded() && OnlyTouches(w) && state.task.Idle?
        && created == (fault != ActiveWrite && fault != RowDelete)
      ensures var l := old(state).Of(w);
              var active := l.(record := Some(Active), live := true, touched := false);
              state.Of(w) == if fault == ActiveWrite
                then l.(files := l.files.(upper := map[]), record := Some(Reclaimed), rows := l.rows - {id})
                             else if fault == RowDelete then active
                             else active.(rows := l.rows - {id}, engine := true)
    {
      hide At, Recorded, Enabled;
      var ok := Activate(w, id, fault);
      if !ok { return false; }
      created := Publish(w, id, fault);
    }

    /**
      Creation either refuses and changes nothing, or ends exactly as CreationLeaves says; it never
      touches another Workspace.
     */
    method CreateWorkspace(w: Name, root: Inode, git: Inode, fault: CreateFault) returns (created: bool)
      requires Recorded() && state.running && state.task.Idle? && root.node.Dir? && git.node.File?
      modifies this`state, this`trace, this`moves
      ensures Recorded() && OnlyTouches(w) && state.task.Idle?
      ensures var l := old(state).Of(w);
              var free := !l.engine && (l.record.None? || l.record == Some(Reclaimed));
              && (created <==> free && fault == NoFault)
              && state.Of(w) == if free then CreationLeaves(l, w, old(state).nextId, root, git, fault) else l
      ensures CreationEnds(created, fault, old(state).Of(w), state.Of(w), root, git)
    {
      hide CreationEnds, At, Recorded, Built, CreationLeaves, LifecycleRow, FreshUpper, PointedUpper, After, Enabled,
        NoFiles;
      var l := state.Of(w);
      CreationLeft(l, w, state.nextId, root, git, fault);
      if l.engine || !(l.record.None? || l.record == Some(Reclaimed)) { return false; }
      if fault == JournalWrite {
        NothingLeft(l, w, state.nextId, root, git);
        return false;
      }
      FreeName(w);
      var id, ok := Start(w, fault);
      BuiltLeaves(l, w, id, root, git, fault);
      if !ok { return false; }
      created := Build(w, id, root, git, fault);
    }

    /**
      Removal refuses, leaving everything as it was, or ends as RemovalLeaves says.  No engine call
      of w may be in flight.
     */
    method RemoveWorkspace(w: Name, fault: RemoveFault) returns (removed: bool)
      requires Recorded() && state.running && state.task.Idle?
      requires state.Of(w).record == Some(Active) && state.Of(w).engine && fault == Smooth ==> state.Of(w).call.None?
      modifies this`state, this`trace, this`moves
      ensures Recorded() && OnlyTouches(w) && state.task.Idle?
      ensures var l := old(state).Of(w);
              && removed == (l.record == Some(Active) && l.engine && fault == Smooth)
              && state.Of(w) == if removed then RemovalLeaves(l, w, old(state).nextId) else l
      ensures removed ==>
        var l, m := old(state).Of(w), state.Of(w);
        && m.record == Some(Removed) && !m.engine && m.files == l.files
        && exists id :: id in m.rows && m.rows[id].kind.WorkspaceRemove? && id in m.workers && m.workers[id] == Git
    {
      hide Recorded, RemovalLeaves;
      if state.Of(w).record != Some(Active) || fault == NoJournal { return false; }
      ghost var l, next := state.Of(w), state.nextId;
      ghost var id := Announce(w);
      if !state.Of(w).engine || fault == NoRemoved {
        Withdraw(w, id, l);
        return false;
      }
      Handover(w, id);
      RemovalLeft(l, w, next);
      RemovalEnds(l, w, next);
      return true;
    }

    // The removal's journal row.
    method Announce(w: Name) returns (ghost id: nat)
      requires Recorded() && state.running && state.task.Idle? && state.Of(w).record == Some(Active)
      modifies this`state, this`trace, this`moves
      ensures Recorded() && OnlyTouches(w) && id == old(state).nextId && id !in old(state).Of(w).rows
      ensures state.task == Removal(w, id, false) && state.TaskOf(w) == state.task
      ensures var l := old(state).Of(w); state.Of(w) == l.(rows := l.rows[id := LifecycleRow(id, WorkspaceRemove, w)])
    {
      FreeName(w);
      hide After, Recorded;
      id := state.nextId;
      Step(w, RemoveBegin);
    }

    method Withdraw(w: Name, ghost id: nat, ghost l: Local)
      requires Recorded() && state.task == Removal(w, id, false) && state.TaskOf(w) == state.task
      requires id !in l.rows && state.Of(w) == l.(rows := l.rows[id := LifecycleRow(id, WorkspaceRemove, w)])
      modifies this`state, this`trace, this`moves
      ensures Recorded() && OnlyTouches(w) && state.task.Idle? && state.Of(w) == l
    {
      hide After, Recorded;
      Step(w, RemoveRefused);
      assert l.rows[id := LifecycleRow(id, WorkspaceRemove, w)] - {id} == l.rows;
    }

    method Handover(w: Name, ghost id: nat)
      requires Recorded() && state.task == Removal(w, id, false) && state.TaskOf(w) == state.task
      requires state.Of(w).engine && state.Of(w).call.None?
      modifies this`state, this`trace, this`moves
      ensures Recorded() && OnlyTouches(w) && state.task.Idle?
      ensures var l := old(state).Of(w);
              state.Of(w) == l.(record := Some(Removed), live := false, engine := false,
                                workers := l.workers[id := Git])
    {
      hide After, Recorded;
      Step(w, RemoveSave);
      Step(w, RemoveStart);
    }

    // The thread's steps.
    method GiveUp(w: Name, id: nat)
      requires Recorded() && state.task.Idle? && id in state.Of(w).workers
      modifies this`state, this`trace, this`moves
      ensures Recorded() && OnlyTouches(w) && state.task.Idle?
      ensures var l := old(state).Of(w); state.Of(w) == l.(workers := l.workers - {id})
    {
      hide After, Recorded;
      Step(w, ReclaimFails(id));
    }

    method CleanGit(w: Name, id: nat)
      requires Recorded() && state.task.Idle? && WorkerAt(state.Of(w), id, Git)
      modifies this`state, this`trace, this`moves
      ensures Recorded() && OnlyTouches(w) && state.task.Idle?
      ensures var l := old(state).Of(w); state.Of(w) == l.(workers := l.workers[id := Storage])
    {
      hide After, Recorded;
      Step(w, ReclaimGit(id));
    }

    method DropStorage(w: Name, id: nat)
      requires Recorded() && state.task.Idle? && WorkerAt(state.Of(w), id, Storage)
      modifies this`state, this`trace, this`moves
      ensures Recorded() && OnlyTouches(w) && state.task.Idle?
      ensures var l := old(state).Of(w);
              state.Of(w) == l.(files := l.files.(upper := map[], stages := map[]), workers := l.workers[id := Tombs])
    {
      hide After, Recorded;
      Step(w, ReclaimStorage(id));
    }

    method DropTombs(w: Name, id: nat)
      requires Recorded() && state.task.Idle? && WorkerAt(state.Of(w), id, Tombs)
      modifies this`state, this`trace, this`moves
      ensures Recorded() && OnlyTouches(w) && state.task.Idle?
      ensures var l := old(state).Of(w);
              state.Of(w) == l.(files := l.files.(tombs := {}), workers := l.workers[id := ReclaimAt.Record])
    {
      hide After, Recorded;
      Step(w, ReclaimTombs(id));
    }

    method Report(w: Name, id: nat)
      requires Recorded() && state.task.Idle? && WorkerAt(state.Of(w), id, ReclaimAt.Record)
      modifies this`state, this`trace, this`moves
      ensures Recorded() && OnlyTouches(w) && state.task.Idle?
      ensures var l := old(state).Of(w); state.Of(w) == l.(record := Some(Reclaimed), workers := l.workers[id := Row])
    {
      hide After, Recorded;
      Step(w, ReclaimRecord(id));
    }

    method DropRow(w: Name, id: nat)
      requires Recorded() && state.task.Idle? && WorkerAt(state.Of(w), id, Row)
      modifies this`state, this`trace, this`moves
      ensures Recorded() && OnlyTouches(w) && state.task.Idle?
      ensures var l := old(state).Of(w); state.Of(w) == l.(rows := l.rows - {id}, workers := l.workers - {id})
    {
      hide After, Recorded;
      Step(w, ReclaimRow(id));
    }

    /**
      The reclaiming thread ends as ReclamationLeaves says: unless it finishes, the removal's row
      stays for recovery.
     */
    method Reclaim(w: Name, id: nat, fault: ReclaimFault) returns (ghost rest: Layer)
      requires Recorded() && state.task.Idle? && WorkerAt(state.Of(w), id, Git)
      modifies this`state, this`trace, this`moves
      ensures Recorded() && OnlyTouches(w) && state.task.Idle?
      ensures Shrunk(old(state).Of(w).files.upper, rest) && (fault.AtStorage? ==> |rest| <= fault.kept)
      ensures state.Of(w) == ReclamationLeaves(old(state).Of(w), id, fault, rest)
      ensures fault.Finishes? ==>
        var m := state.Of(w);
        && m.record == Some(Reclaimed) && m.files.upper == map[] && m.files.stages == map[] && m.files.tombs == {}
        && id !in m.rows && id !in m.workers
    {
      hide Enabled, After, Recorded, Shrunk, ReclamationLeaves;
      ghost var l := state.Of(w);
      ReclamationEnds(l, id);
      rest := map[];
      ShrunkToNothing(l.files.upper);
      LeavesInTurn(l, id, fault);
      if fault.AtGit? {
        GiveUp(w, id);
        return;
      }
      CleanGit(w, id);
      var kept := if fault.AtStorage? then fault.kept else 0;
      RemoveEntries(w, id, kept);
      rest := state.Of(w).files.upper;
      LeavesRest(l, id, fault, rest);
      if fault.AtStorage? {
        GiveUp(w, id);
        return;
      }
      ReclaimRecords(w, id, fault);
    }

    // remove_all of the Workspace directory.
    method RemoveEntries(w: Name, id: nat, kept: nat)
      requires Recorded() && state.task.Idle? && WorkerAt(state.Of(w), id, Storage)
      modifies this`state, this`trace, this`moves
      ensures Recorded() && OnlyTouches(w) && state.task.Idle?
      ensures var upper := state.Of(w).files.upper;
              && |upper| <= kept && Shrunk(old(state).Of(w).files.upper, upper)
              && state.Of(w) == old(state).Of(w).(files := old(state).Of(w).files.(upper := upper))
    {
      hide Recorded, Shrunk;
      ShrunkSelf(state.Of(w).files.upper);
      while |state.Of(w).files.upper| > kept
        invariant Recorded() && OnlyTouches(w) && state.task.Idle?
        invariant Shrunk(old(state).Of(w).files.upper, state.Of(w).files.upper)
        invariant state.Of(w) == old(state).Of(w).(files := old(state).Of(w).files.(upper := state.Of(w).files.upper))
        decreases |state.Of(w).files.upper|
      {
        ghost var before := state.Of(w).files.upper;
        RemoveOne(w, id);
        ShrunkOn(old(state).Of(w).files.upper, before, state.Of(w).files.upper);
      }
    }

    method RemoveOne(w: Name, id: nat)
      requires Recorded() && state.task.Idle? && WorkerAt(state.Of(w), id, Storage) && |state.Of(w).files.upper| > 0
      modifies this`state, this`trace, this`moves
      ensures Recorded() && OnlyTouches(w) && state.task.Idle?
      ensures var l := old(state).Of(w);
              var upper := state.Of(w).files.upper;
              && |upper| < |l.files.upper| && Shrunk(l.files.upper, upper)
              && state.Of(w) == l.(files := l.files.(upper := upper))
    {
      hide After, Recorded;
      var upper := state.Of(w).files.upper;
      assert upper.Keys != {};
      var entry :| entry in upper;
      assert (upper - {entry}).Keys == upper.Keys - {entry};
      Step(w, ReclaimEntry(id, upper - {entry}));
    }

    method ReclaimRecords(w: Name, id: nat, fault: ReclaimFault)
      requires Recorded() && state.task.Idle? && WorkerAt(state.Of(w), id, Storage) && !fault.AtGit?
        && !fault.AtStorage?
      modifies this`state, this`trace, this`moves
      ensures Recorded() && OnlyTouches(w) && state.task.Idle?
      ensures state.Of(w) == ReclamationLeaves(old(state).Of(w), id, fault, map[])
    {
      hide Enabled, After, Recorded, ReclamationLeaves;
      LeavesRecords(state.Of(w), id, fault);
      DropStorage(w, id);
      if fault.AtTombs? {
        GiveUp(w, id);
        return;
      }
      DropTombs(w, id);
      ReportReclaimed(w, id, fault);
    }

    method ReportReclaimed(w: Name, id: nat, fault: ReclaimFault)
      requires Recorded() && state.task.Idle? && WorkerAt(state.Of(w), id, ReclaimAt.Record)
      requires fault.AtRecord? || fault.AtRow? || fault.Finishes?
      modifies this`state, this`trace, this`moves
      ensures Recorded() && OnlyTouches(w) && state.task.Idle?
      ensures var l := old(state).Of(w);
              var reported := l.(workers := l.workers - {id}, record := if fault.AtRecord? then l.record
                                 else Some(Reclaimed));
              state.Of(w) == if fault.Finishes? then reported.(rows := l.rows - {id}) else reported
    {
      hide Enabled, After, Recorded;
      if fault.AtRecord? {
        GiveUp(w, id);
        return;
      }
      Report(w, id);
      if fault.AtRow? { GiveUp(w, id); } else { DropRow(w, id); }
    }

    // The next id is new, and a free name holds no files.
    lemma FreeName(w: Name)
      requires Recorded()
      ensures state.nextId !in state.Of(w).rows
      ensures state.Of(w).record.None? || state.Of(w).record == Some(Reclaimed) ==> state.Of(w).files.upper == map[]
    {
      ReachableSound(trace, moves, mode);
      assert NameSound(state, w);
    }
  }
}
