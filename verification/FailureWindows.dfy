/**
  Where the code falls short of its crash and refinement promises: the exact
  condition of each shortfall, and inputs that meet it.
 */
module FailureWindows {
  import opened Layers
  import opened OverlayLaws
  import opened Journal
  import opened Abandonment
  import Plain = PlainTree

  /**
    A publishing record whose stage is in place recovers if and only if the publishing rename
    is accepted.  So a crash during the chmod of a directory that the upper tree holds non-empty,
    after the phase commit, leaves a Project that recovery refuses to open.
   */
  lemma PublishingRecoversIffReplaceable(d: Disk, op: Operation, mode: Mode)
    requires d.journal == [op] && op.phase.Publishing? && Staged(op.kind) && op.path != [] && Dest(op) != []
    requires WellFormed(d.files.upper) && Parent(Dest(op)) in d.files.upper && d.files.upper[Parent(Dest(op))].node.Dir?
    requires StageExists(d.files, op)
    ensures Recover(d, mode).Ok? <==> RenameStatus(d.files.upper, Dest(op), d.files.stages[op.id][[]].node.Dir?) == None
  {
    MakeDirsNoOp(d.files.upper, Parent(Dest(op)), mode);
    assert d.journal[1..] == [];
    if RenameStatus(d.files.upper, Dest(op), d.files.stages[op.id][[]].node.Dir?) == None {
      RecoverPublishing(d, op);
      assert Recovers(d, CompleteUpper(d.files.upper, op, d.files.stages[op.id]), StoredTombs(d.files.tombs, op));
    }
  }

  lemma ChmodOfFilledDirectoryBlocksRecovery(d: Disk, op: Operation, mode: Mode)
    requires d.journal == [op] && op.phase.Publishing? && op.kind.Chmod? && op.path != []
    requires WellFormed(d.files.upper) && op.path in d.files.upper && HasChild(d.files.upper, op.path)
    requires StageExists(d.files, op) && d.files.stages[op.id][[]].node.Dir?
    ensures Recover(d, mode) == Err(CannotPublish)
  {
    var child :| child in d.files.upper && Under(child, op.path);
    assert Under(op.path, Parent(op.path));
    MakeDirsNoOp(d.files.upper, Parent(op.path), mode);
    assert SettleOp(d.files, op, mode) == Err(CannotPublish);
  }

  /**
    The rollback after the phase commit first removes the stage, then the record.  A crash
    between the two is read as "already published": an abandoned rename over an entry of the
    upper tree leaves that entry as it was, and the source is gone.
   */
  lemma AbandonedRenameLosesSource(d: Disk, o: Overlay, f: Files, op: Operation)
    requires o.Sound() && f.upper == o.upper && f.tombs == o.tombs && StageGone(d, f, op)
    requires op.kind.Rename? && op.path != [] && op.target != [] && Apart(op) && op.dropTarget
    requires op.addTomb == (Unhidden(o.tombs, op.path) && op.path in o.base)
      && NoFoldClash(AddTomb(o, op.path), op.target)
    requires op.path in o.View() && op.target in o.upper
    ensures var after := Overlay(o.base, Prune(o.upper, op.path), DropTombs(AddTomb(o, op.path), op.target));
            && Recovers(d, after.upper, after.tombs)
            && op.path !in after.View() && op.target in after.View() && after.View()[op.target] == o.View()[op.target]
  {
    StageGoneOutcome(d, f, op);
    TombsAgree(f.tombs, op);
    assert AddedRows(f.tombs, op) == AddTomb(o, op.path);
    assert AtOrUnder(op.path, op.path);
    UnhiddenAfterRename(o, op.path, op.target, op.path);
    var after := Overlay(o.base, Prune(o.upper, op.path), DropTombs(AddTomb(o, op.path), op.target));
    ViewAt(after, op.path);
    ViewAt(after, op.target);
    ViewAt(o, op.target);
  }

  // ----- a rename that is not clean -----

  const SOME_FILE := File(0x1A4, [1])

  // Base holds a directory `a` with a file `x`, and a file `f`; both `a/x` and `a` were removed.
  function RemovedDirectory(): Overlay {
    Overlay(map[[] := Inode(1, Dir(0x1FF)), ["a"] := Inode(2, Dir(0x1FF)), ["a", "x"] := Inode(3, SOME_FILE),
                ["f"] := Inode(4, SOME_FILE)], map[[] := Inode(5, Dir(0x1FF))], {["a"], ["a", "x"]})
  }

  function StagedFile(): Layer { map[[] := Inode(6, SOME_FILE)] }

  /** mv f a: the removed file a/x shows again, beneath the file a. */
  lemma RenameUncoversRemovedFile()
    ensures var o := RemovedDirectory();
            && ["a", "x"] !in o.View() && ["f"] in o.View() && ["a"] !in o.View()
            && Renamed(o, ["f"], ["a"], StagedFile()).View()[["a"]] == SOME_FILE
            && ["a", "x"] in Renamed(o, ["f"], ["a"], StagedFile()).View()
            && !CleanRename(o, ["f"], ["a"])
  {
    var o := RemovedDirectory();
    var a: Path, ax: Path, f: Path := ["a"], ["a", "x"], ["f"];
    assert AtOrUnder(ax, a) && AtOrUnder(a, a) && ax[|a|..] == ["x"] && a[|a|..] == [];
    assert ax != a && f != a;
    assert ["a"][0] == "a" && ["f"][0] == "f" && "a"[0] != "f"[0];
    assert !AtOrUnder(a, f) && !AtOrUnder(ax, f) && !AtOrUnder(f, a);
    assert f + ["x"] != ax by { assert (f + ["x"])[0] == "f"; }
    assert |f + ["x"]| == 2;
    assert f + ["x"] !in o.base;
    assert Under(ax, a);
    assert o.Lookup(ax).None? && o.Lookup(a).None?;
    assert o.Lookup(f) == Some(o.base[f]);
    var r := Renamed(o, f, a, StagedFile());
    assert AddTomb(o, f) == {a, ax, f};
    assert DropTombs(AddTomb(o, f), a) == {f};
    assert Unhidden(r.tombs, ax);
    assert r.Lookup(a) == Some(Inode(6, SOME_FILE));
    assert ax !in r.upper;
    assert r.Lookup(ax) == Some(o.base[ax]);
    assert !AncestorHidden(o.tombs, a);
  }
}
