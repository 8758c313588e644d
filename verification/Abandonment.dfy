/**
  A publication that is given up after its phase commit: the rollback removes the
  stage, then the record, and recovery may find any state in between.
 */
module Abandonment {
  import opened Layers
  import opened OverlayLaws
  import opened Journal

  // The stage goes entry by entry, its root last, and then the record.
  ghost predicate Abandoning(d: Disk, f: Files, op: Operation, stage: Layer) {
    && d.files.upper == f.upper && d.files.tombs == f.tombs
    && (d.journal == [] || (|d.journal| == 1 && StillRecorded(d, d.journal[0], op, stage)))
  }

  ghost predicate StillRecorded(d: Disk, o: Operation, op: Operation, stage: Layer) {
    && o == op.(id := o.id, phase := Publishing)
    && (o.id in d.files.stages ==> WellFormedStage(d.files.stages[o.id]) && Shrunk(stage, d.files.stages[o.id]))
  }

  // The state between the two removals.
  ghost predicate StageGone(d: Disk, f: Files, op: Operation) {
    && d.files.upper == f.upper && d.files.tombs == f.tombs
    && |d.journal| == 1 && d.journal[0] == op.(id := d.journal[0].id, phase := Publishing)
    && d.journal[0].id !in d.files.stages
  }

  ghost predicate RefusedWith(d: Disk, refusal: Refusal) {
    forall mode: Mode :: Recover(d, mode) == Err(refusal)
  }

  // What recovery makes of the files when it takes the entry for already published.
  function TakenAsPublished(f: Files, op: Operation): Files {
    Files(if op.kind.Rename? then Prune(f.upper, op.path) else f.upper, map[], StoredTombs(f.tombs, op))
  }

  lemma RefusedOne(d: Disk, op: Operation, refusal: Refusal)
    requires d.journal == [op] && forall mode: Mode :: SettleOp(d.files, op, mode) == Err(refusal)
    ensures RefusedWith(d, refusal)
  {
    forall mode: Mode ensures Recover(d, mode) == Err(refusal) {
      assert SettleOp(d.files, op, mode) == Err(refusal);
    }
  }

  lemma OneOutcome(d: Disk, upper: Layer, tombs: set<Path>, upper': Layer, tombs': set<Path>)
    requires Recovers(d, upper, tombs) && Recovers(d, upper', tombs')
    ensures upper == upper' && tombs == tombs'
  {
    assert Recover(d, 0) == Ok(Disk(Files(upper, map[], tombs), [], d.nextId));
  }

  lemma NotRecovered(d: Disk, refusal: Refusal, upper: Layer, tombs: set<Path>)
    requires RefusedWith(d, refusal)
    ensures !Recovers(d, upper, tombs)
  {
    assert Recover(d, 0) == Err(refusal);
  }

  /**
    Between the two removals recovery refuses the whole Project if nothing is at the destination,
    and otherwise finishes as if the entry had been published.
   */
  lemma StageGoneOutcome(d: Disk, f: Files, op: Operation)
    requires StageGone(d, f, op) && Staged(op.kind) && op.path != []
    ensures Dest(op) !in f.upper ==> RefusedWith(d, StageAndEntryMissing)
    ensures Dest(op) in f.upper ==> Recovers(d, TakenAsPublished(f, op).upper, TakenAsPublished(f, op).tombs)
  {
    var o := d.journal[0];
    if Dest(op) in f.upper {
      RecoverPublished(d, o, f.upper);
    } else {
      RefusedOne(d, o, StageAndEntryMissing);
    }
  }

  // Neither place of a rename lies within the other.
  ghost predicate Apart(op: Operation) {
    op.kind.Rename? ==> !AtOrUnder(op.target, op.path) && !AtOrUnder(op.path, op.target)
  }

  /** While its root is left, whatever remains of the stage is published in place of the whole. */
  lemma HalfStagePublished(d: Disk, f: Files, op: Operation, stage: Layer)
    requires Abandoning(d, f, op, stage) && CanGoForward(f, op, stage) && Staged(op.kind) && Apart(op)
    requires d.journal != [] && d.journal[0].id in d.files.stages
    ensures var left := d.files.stages[d.journal[0].id];
            && Recovers(d, CompleteUpper(f.upper, op, left), StoredTombs(f.tombs, op))
            && (CompleteUpper(f.upper, op, left) == CompleteUpper(f.upper, op, stage) <==> left == stage)
  {
    var o := d.journal[0];
    var left := d.files.stages[o.id];
    assert d.journal == [o];
    RecoverPublishing(d, o);
    if left != stage { MissingShows(f, op, stage, left); }
  }

  lemma MissingShows(f: Files, op: Operation, stage: Layer, left: Layer)
    requires Shrunk(stage, left) && left != stage && Staged(op.kind) && Apart(op)
    ensures CompleteUpper(f.upper, op, left) != CompleteUpper(f.upper, op, stage)
  {
    assert left.Keys != stage.Keys;
    var q :| q in stage && q !in left;
    var p := Dest(op) + q;
    assert AtOrUnder(p, Dest(op)) && p[|Dest(op)|..] == q;
    if op.kind.Rename? { NotBelowBoth(p, op.target, op.path); }
    assert p in CompleteUpper(f.upper, op, stage) && p !in CompleteUpper(f.upper, op, left);
  }

  /** A waiting stage that rename(2) refuses to put in place blocks recovery. */
  lemma UnplaceableRefused(d: Disk, f: Files, op: Operation, stage: Layer)
    requires Abandoning(d, f, op, stage) && Staged(op.kind) && op.path != [] && Placed(f, op)
    requires d.journal != [] && d.journal[0].id in d.files.stages && [] in stage
    requires RenameStatus(f.upper, Dest(op), stage[[]].node.Dir?).Some?
    ensures RefusedWith(d, CannotPublish)
  {
    var o := d.journal[0];
    forall mode ensures SettleOp(d.files, o, mode) == Err(CannotPublish) {
      MakeDirsNoOp(f.upper, Parent(Dest(op)), mode);
    }
    RefusedOne(d, o, CannotPublish);
  }

  // The destination's parent is in the upper tree.
  ghost predicate Placed(f: Files, op: Operation) {
    WellFormed(f.upper) && Dest(op) != [] && Parent(Dest(op)) in f.upper && f.upper[Parent(Dest(op))].node.Dir?
  }

  ghost predicate EndsOldOrNew(d: Disk, f: Files, op: Operation, stage: Layer) {
    Recovers(d, f.upper, f.tombs) || Recovers(d, CompleteUpper(f.upper, op, stage), StoredTombs(f.tombs, op))
  }

  // One entry, replaced in the upper tree, with nothing left to finish: no source to remove, no row to change.
  ghost predicate SafeToAbandon(f: Files, op: Operation, stage: Layer) {
    && Dest(op) in f.upper && stage.Keys == {[]} && RenameStatus(f.upper, Dest(op), stage[[]].node.Dir?) == None
    && TakenAsPublished(f, op) == Files(f.upper, map[], f.tombs)
  }

  lemma SafeStates(d: Disk, f: Files, op: Operation, stage: Layer)
    requires Staged(op.kind) && op.path != [] && Placed(f, op) && Apart(op)
    requires SafeToAbandon(f, op, stage) && Abandoning(d, f, op, stage)
    ensures EndsOldOrNew(d, f, op, stage)
  {
    if d.journal == [] {
      RecoverIdle(d);
    } else if d.journal[0].id in d.files.stages {
      HalfStagePublished(d, f, op, stage);
      assert d.files.stages[d.journal[0].id] == stage;
    } else {
      StageGoneOutcome(d, f, op);
    }
  }

  lemma PublishedRoot(f: Files, op: Operation, stage: Layer)
    requires Staged(op.kind) && Apart(op) && [] in stage
    ensures Dest(op) in CompleteUpper(f.upper, op, stage) && CompleteUpper(f.upper, op, stage)[Dest(op)] == stage[[]]
    ensures Dest(op) in f.upper ==>
      Dest(op) in TakenAsPublished(f, op).upper && TakenAsPublished(f, op).upper[Dest(op)] == f.upper[Dest(op)]
  {
    GraftRoot(f.upper, Dest(op), stage);
  }

  // From state k, which commits the publishing phase, a publication is given up: the stage waits, loses
  // entry after entry until only its root is left, is gone in the last state but one, and then so is the record.
  ghost predicate GivenUp(states: seq<Disk>, k: nat, f: Files, op: Operation, stage: Layer) {
    && k + 3 <= |states|
    && (forall i | k <= i < |states| :: Abandoning(states[i], f, op, stage))
    && StageWaits(states[k], stage)
    && (forall i | k < i < |states| - 2 :: LosesOne(states[i - 1], states[i]))
    && RootLeft(states[|states| - 3])
    && StageGone(states[|states| - 2], f, op) && states[|states| - 1].journal == []
  }

  ghost predicate Waits(d: Disk) { |d.journal| == 1 && d.journal[0].id in d.files.stages }

  // What is left of the stage of the recorded operation.
  ghost function Left(d: Disk): Layer
    requires Waits(d)
  {
    d.files.stages[d.journal[0].id]
  }

  ghost predicate StageWaits(d: Disk, stage: Layer) { Waits(d) && Left(d) == stage }

  ghost predicate RootLeft(d: Disk) { Waits(d) && Left(d).Keys == {[]} }

  ghost predicate LosesOne(d: Disk, e: Disk) {
    Waits(d) && Waits(e) && exists leaf :: leaf in Left(d) && leaf != [] && Left(e) == Left(d) - {leaf}
  }

  /**
    Every state of an abandoned publication recovers to the old or to the completed files if and
    only if the operation replaces one single entry of the upper tree, the replacement is accepted,
    and nothing but that entry would change.  (The staged root is a new inode.)
   */
  lemma AbandonedStaysAtomic(states: seq<Disk>, k: nat, f: Files, op: Operation, stage: Layer)
    requires GivenUp(states, k, f, op, stage)
    requires Staged(op.kind) && op.path != [] && Placed(f, op) && Apart(op) && [] in stage
    requires Dest(op) in f.upper ==> f.upper[Dest(op)] != stage[[]]
    ensures (forall i | k <= i < |states| :: EndsOldOrNew(states[i], f, op, stage)) <==> SafeToAbandon(f, op, stage)
  {
    if SafeToAbandon(f, op, stage) {
      forall i | k <= i < |states| ensures EndsOldOrNew(states[i], f, op, stage) {
        SafeStates(states[i], f, op, stage);
      }
    } else if RenameStatus(f.upper, Dest(op), stage[[]].node.Dir?).Some? {
      UnplaceableRefused(states[k], f, op, stage);
      NeverEnds(states[k], f, op, stage, CannotPublish);
    } else if Dest(op) !in f.upper {
      StageGoneOutcome(states[|states| - 2], f, op);
      NeverEnds(states[|states| - 2], f, op, stage, StageAndEntryMissing);
    } else if TakenAsPublished(f, op) != Files(f.upper, map[], f.tombs) {
      TakenDiffers(states[|states| - 2], f, op, stage);
    } else {
      assert stage.Keys != {[]};
      assert k + 1 < |states| - 2 by { assert RootLeft(states[|states| - 3]) && StageWaits(states[k], stage); }
      assert LosesOne(states[k], states[k + 1]);
      HalfDiffers(states[k + 1], f, op, stage);
    }
  }

  lemma NeverEnds(d: Disk, f: Files, op: Operation, stage: Layer, refusal: Refusal)
    requires RefusedWith(d, refusal)
    ensures !EndsOldOrNew(d, f, op, stage)
  {
    if Recovers(d, f.upper, f.tombs) { NotRecovered(d, refusal, f.upper, f.tombs); }
    var new', rows := CompleteUpper(f.upper, op, stage), StoredTombs(f.tombs, op);
    if Recovers(d, new', rows) { NotRecovered(d, refusal, new', rows); }
  }

  lemma TakenDiffers(d: Disk, f: Files, op: Operation, stage: Layer)
    requires StageGone(d, f, op) && Staged(op.kind) && op.path != [] && Apart(op) && [] in stage
    requires Dest(op) in f.upper && f.upper[Dest(op)] != stage[[]]
      && TakenAsPublished(f, op) != Files(f.upper, map[], f.tombs)
    ensures !EndsOldOrNew(d, f, op, stage)
  {
    var taken, new', rows := TakenAsPublished(f, op), CompleteUpper(f.upper, op, stage), StoredTombs(f.tombs, op);
    StageGoneOutcome(d, f, op);
    PublishedRoot(f, op, stage);
    if Recovers(d, new', rows) { OneOutcome(d, new', rows, taken.upper, taken.tombs); }
    if Recovers(d, f.upper, f.tombs) { OneOutcome(d, f.upper, f.tombs, taken.upper, taken.tombs); }
  }

  lemma HalfDiffers(d: Disk, f: Files, op: Operation, stage: Layer)
    requires Abandoning(d, f, op, stage) && Waits(d) && Left(d) != stage && CanGoForward(f, op, stage)
      && Staged(op.kind) && Apart(op)
    requires Dest(op) in f.upper ==> f.upper[Dest(op)] != stage[[]]
    ensures !EndsOldOrNew(d, f, op, stage)
  {
    var left := d.files.stages[d.journal[0].id];
    var half, new', rows := CompleteUpper(f.upper, op, left), CompleteUpper(f.upper, op, stage),
      StoredTombs(f.tombs, op);
    HalfStagePublished(d, f, op, stage);
    PublishedRoot(f, op, left);
    if Recovers(d, new', rows) { OneOutcome(d, new', rows, half, rows); }
    if Recovers(d, f.upper, f.tombs) { OneOutcome(d, f.upper, f.tombs, half, rows); }
  }
}
