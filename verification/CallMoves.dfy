/**
  Every durable step of an engine call is a move of the lifecycle machine, so that what holds in
  all its runs holds of the calls, crashed at any of their steps.
 */
module CallMoves {
  import opened Layers
  import opened Journal
  import opened CallStates
  import opened Engine
  import L = Lifecycle

  // The machine serves Workspace w, whose engine is in the durable state d.
  ghost predicate Serves(s: L.State, w: Name, d: Disk) {
    var l := s.Of(w);
    && s.running && l.engine && !s.TaskOf(w).Removal? && l.files == d.files
    && (if d.journal == [] then l.call.None? else |d.journal| == 1 && InFlight(l, d.journal[0]))
  }

  ghost predicate InFlight(l: L.Local, op: Operation) {
    !Lifecycle(op.kind) && l.call == Some(op.id) && op.id in l.rows && l.rows[op.id] == op
  }

  // The move that the step is.
  function StepOf(d: Disk, e: Disk): L.Step {
    if |d.journal| < |e.journal| then L.CallBegin(e.journal[0])
    else if |d.journal| > |e.journal| then L.CallEnd(e.files.tombs)
    else if d.journal == e.journal then L.CallWork(e.files.upper, e.files.stages)
    else L.CallPublish
  }

  /**
    A step of a call is a move, whatever requests and other Workspaces are doing, provided that a
    call that begins gets the next id; and the machine then serves the Workspace in the state
    reached.
   */
  lemma StepIsMove(s: L.State, w: Name, d: Disk, e: Disk, mode: Mode)
    requires Serves(s, w, d) && CallStep(w, d, e) && (d.journal == [] && e.journal != [] ==> s.nextId == d.nextId)
    ensures L.CanMove(s, L.Take(w, StepOf(d, e)), mode)
    ensures var s' := L.After(s, L.Take(w, StepOf(d, e)), mode);
            && Serves(s', w, e) && s'.task == s.task
            && s'.nextId == (if d.journal == [] && e.journal != [] then s.nextId + 1 else s.nextId)
            && forall x | x != w :: s'.Of(x) == s.Of(x)
  {
    assert s.task.Idle? || s.task.name == w ==> L.NextTask(w, s.TaskOf(w), s.nextId, StepOf(d, e)) == s.task;
  }

  // A run of the machine that follows these durable states.
  ghost predicate Follows(run: seq<L.State>, w: Name, states: seq<Disk>, mode: Mode) {
    && |run| == |states|
    && (forall i | 0 <= i < |states| :: Serves(run[i], w, states[i]) && run[i].nextId == states[i].nextId)
    && (forall i | 1 <= i < |states| ::
          && L.CanMove(run[i - 1], L.Take(w, StepOf(states[i - 1], states[i])), mode)
          && run[i] == L.After(run[i - 1], L.Take(w, StepOf(states[i - 1], states[i])), mode))
  }

  lemma NextIdOf(w: Name, d: Disk, e: Disk)
    requires CallStep(w, d, e)
    ensures e.nextId == if d.journal == [] && e.journal != [] then d.nextId + 1 else d.nextId
  {
  }

  /** The durable states of an engine are those of a run of the machine. */
  lemma {:induction false} StatesAreRun(s: L.State, w: Name, states: seq<Disk>, mode: Mode) returns (run: seq<L.State>)
    requires states != [] && Serves(s, w, states[0]) && s.nextId == states[0].nextId
    requires forall i | 1 <= i < |states| :: CallStep(w, states[i - 1], states[i])
    ensures Follows(run, w, states, mode) && run[0] == s
    decreases |states|
  {
    hide Serves, CallStep, L.CanMove, L.After;
    if |states| == 1 {
      run := [s];
    } else {
      var n := |states| - 1;
      run := StatesAreRun(s, w, states[..n], mode);
      assert states[..n][n - 1] == states[n - 1];
      StepIsMove(run[n - 1], w, states[n - 1], states[n], mode);
      NextIdOf(w, states[n - 1], states[n]);
      run := run + [L.After(run[n - 1], L.Take(w, StepOf(states[n - 1], states[n])), mode)];
      LongerRun(run, w, states, mode);
    }
  }

  lemma LongerRun(run: seq<L.State>, w: Name, states: seq<Disk>, mode: Mode)
    requires |states| == |run| >= 2
    requires var n := |states| - 1;
             && Follows(run[..n], w, states[..n], mode)
             && L.CanMove(run[n - 1], L.Take(w, StepOf(states[n - 1], states[n])), mode)
             && run[n] == L.After(run[n - 1], L.Take(w, StepOf(states[n - 1], states[n])), mode)
             && Serves(run[n], w, states[n]) && run[n].nextId == states[n].nextId
    ensures Follows(run, w, states, mode)
  {
    hide Serves, L.CanMove, L.After;
    var n := |states| - 1;
    forall i | 0 <= i < |states| ensures Serves(run[i], w, states[i]) && run[i].nextId == states[i].nextId {
      if i < n { assert run[..n][i] == run[i] && states[..n][i] == states[i]; }
    }
    forall i | 1 <= i < |states|
      ensures L.CanMove(run[i - 1], L.Take(w, StepOf(states[i - 1], states[i])), mode)
      ensures run[i] == L.After(run[i - 1], L.Take(w, StepOf(states[i - 1], states[i])), mode)
    {
      if i < n {
        assert run[..n][i - 1] == run[i - 1] && run[..n][i] == run[i] && states[..n][i - 1] == states[i - 1]
          && states[..n][i] == states[i];
      }
    }
  }

  /**
    Whatever calls an engine has served, its trace is a run of the machine, and the lifecycle
    invariant of every name holds in each state of it, and after a crash in each.
   */
  lemma EngineIsRun(engine: WorkspaceEngine, s: L.State, mode: Mode) returns (run: seq<L.State>)
    requires engine.Traced() && Serves(s, engine.workspace, engine.trace[0]) && s.nextId == engine.trace[0].nextId
    requires L.Invariant(s)
    ensures Follows(run, engine.workspace, engine.trace, mode) && run[0] == s
    ensures forall i | 0 <= i < |run| :: L.Invariant(run[i]) && L.Invariant(L.After(run[i], L.Crash, mode))
  {
    hide Serves, L.Invariant, L.After, CallStep;
    run := StatesAreRun(s, engine.workspace, engine.trace, mode);
    var i := 0;
    while i < |run|
      invariant 0 <= i <= |run| && (i > 0 ==> L.Invariant(run[i - 1]))
      invariant forall j | 0 <= j < i :: L.Invariant(run[j])
    {
      if i > 0 {
        L.MoveKeeps(run[i - 1], L.Take(engine.workspace, StepOf(engine.trace[i - 1], engine.trace[i])), mode);
      }
      i := i + 1;
    }
    forall j | 0 <= j < |run| ensures L.Invariant(run[j]) && L.Invariant(L.After(run[j], L.Crash, mode)) {
      L.MoveKeeps(run[j], L.Crash, mode);
    }
  }
}
