/**
  One theorem from end to end: a call of one Workspace is cut short anywhere, the recovery of the
  whole Project is cut short any number of times, and what that Workspace shows in the end is the
  tree from before the call or the one the call makes.  The other Workspaces may be in any state
  that creations, removals, reclamations and calls of theirs can reach.
 */
module ProjectCrashes {
  import opened Layers
  import opened OverlayLaws
  import opened Journal
  import opened ProjectRecovery
  import opened CallStates
  import opened Engine
  import opened CallMoves
  import L = Lifecycle

  // The Project holds the Workspace w in the durable state d, among any others.
  ghost predicate Holds(p: Project, w: Name, d: Disk) {
    && p.At(w) == d.files && CallRows(p.journal, w) == d.journal
    && forall i | 0 <= i < |p.journal| :: p.journal[i].workspace == w && Lifecycle(p.journal[i].kind) ==> IsActive(p, w)
  }

  ghost predicate Shows(base: Layer, f: Files, v: Tree) {
    f.stages == map[] && ShowsSoundly(base, f.upper, f.tombs, v)
  }

  // A run of recoveries, each of which may stop after any durable step.
  ghost predicate InterruptedRuns(run: seq<Project>, p: Project, mode: Mode) {
    run != [] && run[0] == p && forall i | 0 <= i < |run| - 1 :: RecoveryStep(run[i], run[i + 1], mode)
  }

  // The process died in the state s of the machine, and p is what recovery then loads.
  ghost predicate DiedIn(p: Project, s: L.State, mode: Mode) {
    L.Invariant(s) && L.Represents(p, L.After(s, L.Crash, mode))
  }

  // ----- one Workspace in the journal -----

  lemma {:induction false} OwnRows(journal: seq<Operation>, w: Name)
    ensures forall i | 0 <= i < |RowsOf(journal, w)| ::
      RowsOf(journal, w)[i] in journal && RowsOf(journal, w)[i].workspace == w
    ensures CallRows(RowsOf(journal, w), w) == CallRows(journal, w)
  {
    if journal != [] {
      OwnRows(journal[1..], w);
      if journal[0].workspace == w {
        assert RowsOf(journal, w)[1..] == RowsOf(journal[1..], w);
      } else {
        assert RowsOf(journal, w) == RowsOf(journal[1..], w) && CallRows(journal, w) == CallRows(journal[1..], w);
      }
    }
  }

  // The only call row that the journal has for w, or none.
  lemma {:induction false} OneCallRow(journal: seq<Operation>, w: Name, own: seq<Operation>)
    requires forall i, j | 0 <= i < j < |journal| :: journal[i].id < journal[j].id
    requires |own| <= 1 && forall op | op in journal && op.workspace == w && !Lifecycle(op.kind) :: op in own
    requires own != [] ==> own[0] in journal && own[0].workspace == w && !Lifecycle(own[0].kind)
    ensures CallRows(journal, w) == own
  {
    if journal != [] {
      var rest := journal[1..];
      assert forall op | op in rest :: op in journal && journal[0].id < op.id;
      if journal[0].workspace == w && !Lifecycle(journal[0].kind) {
        assert own == [journal[0]];
        OneCallRow(rest, w, []);
      } else {
        assert own != [] ==> own[0] in rest;
        OneCallRow(rest, w, own);
      }
    }
  }

  // What the engine of w stood for is what the Project holds of it.
  lemma CrashHolds(p: Project, s: L.State, w: Name, d: Disk, mode: Mode)
    requires DiedIn(p, s, mode) && Serves(s, w, d)
    ensures Holds(p, w, d) && SoundRows(p.journal)
  {
    hide L.RecordSound, L.TaskSound, L.WorkersSound, L.UntouchedSound;
    var l, s' := s.Of(w), L.After(s, L.Crash, mode);
    L.MoveKeeps(s, L.Crash, mode);
    L.JournalIsSound(p, s');
    assert L.NameSound(s, w) && s'.Of(w) == L.Down(l);
    L.RepresentedAt(p, s', w);
    assert L.RowsListed(p.journal, s');
    forall op | op in p.journal && op.workspace == w && !Lifecycle(op.kind) ensures op in d.journal {
      assert L.HasThisRow(s'.Of(w), op);
    }
    if d.journal != [] { assert s'.Of(w).rows[d.journal[0].id] in p.journal; }
    OneCallRow(p.journal, w, d.journal);
  }

  /** A crash of an engine at any state of its trace: such a machine state and such a Project exist. */
  lemma EngineCrash(engine: WorkspaceEngine, first: L.State, i: nat, mode: Mode) returns (s: L.State, p: Project)
    requires engine.Traced() && i < |engine.trace| && L.Invariant(first)
    requires Serves(first, engine.workspace, engine.trace[0]) && first.nextId == engine.trace[0].nextId
    ensures DiedIn(p, s, mode) && Serves(s, engine.workspace, engine.trace[i])
  {
    hide Serves, L.Invariant, L.After, CallStep;
    var run := EngineIsRun(engine, first, mode);
    s := run[i];
    p := L.HasProject(L.After(s, L.Crash, mode));
  }

  // ----- where recovery ends -----

  /** The rows of other Workspaces can stop the recovery of a Project, but cannot change what it makes of this one. */
  lemma RecoversInProject(p: Project, w: Name, d: Disk, upper: Layer, tombs: set<Path>, mode: Mode)
    requires Holds(p, w, d) && Recovers(d, upper, tombs)
    ensures RecoverAll(Only(p, w), mode).Ok?
    ensures RecoverAll(p, mode).Ok? ==> RecoverAll(p, mode).value.At(w) == Files(upper, map[], tombs)
  {
    var alone := Only(p, w);
    OwnRows(p.journal, w);
    assert alone.At(w) == d.files && CallRows(alone.journal, w) == d.journal;
    assert Recover(d, mode) == Ok(Disk(Files(upper, map[], tombs), [], d.nextId));
    AgreesWithEngine(alone, w, d.nextId, mode);
    if RecoverAll(p, mode).Ok? { Independent(p, w, mode); }
  }

  lemma RunsEnd(run: seq<Project>, p: Project, w: Name, d: Disk, upper: Layer, tombs: set<Path>, mode: Mode)
    requires InterruptedRuns(run, p, mode) && SoundRows(p.journal) && Holds(p, w, d) && Recovers(d, upper, tombs)
    ensures var r := RecoverAll(run[|run| - 1], mode);
            && (r.Ok? <==> forall x | x != w :: RecoverAll(Only(p, x), mode).Ok?)
            && (r.Ok? ==> r.value.At(w) == Files(upper, map[], tombs))
  {
    hide Holds;
    InterruptionsKeepOutcome(run, mode);
    RecoversInProject(p, w, d, upper, tombs, mode);
    SucceedsIffEachDoes(p, mode);
  }

  lemma RunsShow(run: seq<Project>, p: Project, w: Name, d: Disk, base: Layer, v: Tree, mode: Mode)
    requires InterruptedRuns(run, p, mode) && SoundRows(p.journal) && Holds(p, w, d) && RecoversTo(base, d, v)
    ensures var r := RecoverAll(run[|run| - 1], mode);
            && (r.Ok? <==> forall x | x != w :: RecoverAll(Only(p, x), mode).Ok?)
            && (r.Ok? ==> Shows(base, r.value.At(w), v))
  {
    hide Holds;
    var upper, tombs :| Recovers(d, upper, tombs) && ShowsSoundly(base, upper, tombs, v);
    RunsEnd(run, p, w, d, upper, tombs, mode);
  }

  /**
    The call is cut short in state i of its trace.  Whatever other Workspaces and requests are
    doing, and however often recovery is interrupted and started again: the recovery that completes
    does so if and only if each other Workspace alone recovers, and it leaves the new tree from the
    commit k on, and before it the old one, with some of the directories copied up made anew.
   */
  lemma CrashedCallEndsOldOrNew(run: seq<Project>, p: Project, s: L.State, w: Name, base: Layer, states: seq<Disk>,
                                from: nat, k: nat, i: nat, v: Tree, copied: set<Path>, umask: Mode, v': Tree,
                                  mode: Mode)
    requires CallAtomic(base, states, from, k, v, copied, umask, v') && from <= i < |states|
    requires Serves(s, w, states[i]) && DiedIn(p, s, mode) && InterruptedRuns(run, p, mode)
    ensures var r := RecoverAll(run[|run| - 1], mode);
            && (r.Ok? <==> forall x | x != w :: RecoverAll(Only(p, x), mode).Ok?)
            && (r.Ok? && k <= i ==> Shows(base, r.value.At(w), v'))
            && (r.Ok? && i < k ==> exists c: set<Path> ::
                c <= copied && Shows(base, r.value.At(w), Remade(v, c, umask)))
  {
    hide RecoversTo, Shows, Serves, DiedIn, Holds;
    CrashHolds(p, s, w, states[i], mode);
    if k <= i {
      RunsShow(run, p, w, states[i], base, v', mode);
    } else {
      assert RecoversNear(base, states[i], v, copied, umask);
      var c :| c <= copied && RecoversTo(base, states[i], Remade(v, c, umask));
      RunsShow(run, p, w, states[i], base, Remade(v, c, umask), mode);
    }
  }

  /** ... on durable states, whatever the operation makes visible: exactly the old or exactly the completed files. */
  lemma CrashedOperationEndsOldOrNew(run: seq<Project>, p: Project, s: L.State, w: Name, states: seq<Disk>, from: nat,
                                     k: nat, i: nat, f: Files, g: Files, mode: Mode)
    requires DurablyAtomic(states, from, k, f, g) && from <= i < |states|
    requires Serves(s, w, states[i]) && DiedIn(p, s, mode) && InterruptedRuns(run, p, mode)
    ensures var r := RecoverAll(run[|run| - 1], mode);
            && (r.Ok? <==> forall x | x != w :: RecoverAll(Only(p, x), mode).Ok?)
            && (r.Ok? ==> r.value.At(w) == if i < k then f.(stages := map[]) else g.(stages := map[]))
  {
    hide Serves, DiedIn, Holds;
    CrashHolds(p, s, w, states[i], mode);
    if i < k {
      RunsEnd(run, p, w, states[i], f.upper, f.tombs, mode);
    } else {
      RunsEnd(run, p, w, states[i], g.upper, g.tombs, mode);
    }
  }

  /**
    Re-entrancy without a condition on the journal: whatever state the process dies in, recoveries
    that are interrupted end where one that is not interrupted ends.
   */
  lemma InterruptionsAfterAnyCrash(run: seq<Project>, p: Project, s: L.State, mode: Mode)
    requires DiedIn(p, s, mode) && InterruptedRuns(run, p, mode)
    ensures RecoverAll(run[|run| - 1], mode) == RecoverAll(p, mode)
  {
    hide L.Invariant, L.After, L.Represents;
    L.MoveKeeps(s, L.Crash, mode);
    L.JournalIsSound(p, L.After(s, L.Crash, mode));
    InterruptionsKeepOutcome(run, mode);
  }
}
