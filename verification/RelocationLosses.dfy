/** Runs on which a gameserver's contents are lost. */
module RelocationLosses {
  import opened Common
  import opened Relocation
  import opened RelocationRuns
  import opened RelocationOutcomes

  // ----- archive's window -----

  /** Between the removal of the volume and the row write the row names a volume that is gone. */
  lemma ArchiveWindowIsReal(w: World, f: ArchiveCalls)
    requires w.Settled() && !w.spec.archived && w.worker.Some? && !f.backupFails && f.save.Saved? && f.remove.Removed?
    ensures
      var m := Go(Begin(w, ArchiveProgram(w, f)), Turns(6));
      m.phase == Clearing && m.world.Located().None?
  {
    var n, start := w.worker.value, Begin(w, ArchiveProgram(w, f));
    var read := Next(Next(start));
    var kept := Next(Next(read));
    SixTurns(start);
    assert kept.todo == Removing(n, f.remove, Then(Vacate, Persisting(RowVacated, f.db, Done(true))));
  }

  lemma OneTurnMore(m: Machine, k: nat)
    ensures Go(m, Turns(k + 1)) == Next(Go(m, Turns(k)))
  {
    assert Turns(k + 1) == Turns(k) + [Turn];
    GoAppend(m, Turns(k), Turn);
  }

  lemma SixTurns(m: Machine)
    ensures Go(m, Turns(2)) == Next(Next(m))
    ensures Go(m, Turns(6)) == Next(Next(Next(Next(Next(Next(m))))))
  {
    assert Turns(0) == [] && Go(m, []) == m;
    OneTurnMore(m, 0);
    OneTurnMore(m, 1);
    OneTurnMore(m, 2);
    OneTurnMore(m, 3);
    OneTurnMore(m, 4);
    OneTurnMore(m, 5);
  }

  // ----- migrating back after a failed row write -----

  /** What a migration's restart does to the contents. */
  function StartEdit(f: MigrateCalls, c: Contents): Contents {
    if f.wasRunning then f.start.edit(c) else c
  }

  /**
   A migration whose row write failed leaves row and memory apart; migrating back then reads
   from and restores onto the same node, and its clean-up removes the volume the row names. All
   that is left is what a restart writes into a new volume.
   */
  lemma MigratingBackLosesTheNamedVolume(w: World, a: Node, b: Node, there: MigrateCalls, back: MigrateCalls, n: nat)
    requires w.Settled() && w.spec.node == Some(a)
    requires CanMigrate(w, b, there) && !there.db.RowWritten?
    requires !back.rejected && !back.backupFails && Reaches(w.latest, back)
    requires back.db.RowWritten? && back.remove.Removed?
    requires Size(MigrateProgram(w, b, there)) <= n
    requires Size(MigrateProgram(Moved(w.Stopped(), w.latest, b), a, back)) <= n
    ensures
      var apart := Apply(w, Operate(MigrateOp(b, there), Turns(n)));
      var end := Apply(apart, Operate(MigrateOp(a, back), Turns(n)));
      var left := if back.wasRunning then Some(back.start.edit(map[])) else None;
      CanMigrate(apart, a, back) && (end.row, end.Located(), end.latest) == (On(a), left, StartEdit(back, w.latest))
  {
    MigrationEnds(w, b, there, n);
    BackHome(Moved(w.Stopped(), w.latest, b), a, back, n);
  }

  /** A migration onto the node the row names already. */
  lemma BackHome(apart: World, a: Node, back: MigrateCalls, n: nat)
    requires apart.row == On(a) && a in apart.online && a in apart.volumes && apart.volumes[a] == apart.latest
    requires apart.spec.node.Some? && apart.spec.node != Some(a) && !apart.spec.archived
    requires !back.rejected && !back.backupFails && Reaches(apart.latest, back)
    requires back.db.RowWritten? && back.remove.Removed? && Size(MigrateProgram(apart, a, back)) <= n
    ensures
      var end := Apply(apart, Operate(MigrateOp(a, back), Turns(n)));
      var left := if back.wasRunning then Some(back.start.edit(map[])) else None;
      CanMigrate(apart, a, back) && (end.row, end.Located(), end.latest) == (On(a), left, StartEdit(back, apart.latest))
  {
    MigrationEnds(apart, a, back, n);
  }

  lemma MigrationEnds(w: World, target: Node, f: MigrateCalls, n: nat)
    requires CanMigrate(w, target, f) && Size(MigrateProgram(w, target, f)) <= n
    ensures
      var source := w.WorkerFor().value;
      var moved := Moved(w.Stopped(), w.volumes[source], target);
      Apply(w, Operate(MigrateOp(target, f), Turns(n))) ==
      if f.db.RowWritten? then Relaunched(Cleaned(moved, source, target, f), f) else moved
  {
    MigrateOutcome(w, target, f);
    TurnsFinish(Begin(w, MigrateProgram(w, target, f)), n);
  }

  // ----- an edit between the copy and the row change -----

  /**
   A file edit right after the backup has read the volume: the row names the volume without the
   edit, and the volume with it is gone. A restart starts from the old contents.
   */
  lemma MissedEditIsLost(w: World, target: Node, f: MigrateCalls, e: Edit, n: nat)
    requires w.Settled() && CanMigrate(w, target, f) && f.db.RowWritten? && f.remove.Removed?
    requires Size(MigrateProgram(w, target, f)) <= n
    ensures
      var end := Apply(w, Operate(MigrateOp(target, f), Turns(2) + [FileEdit(e)] + Turns(n)));
      && end.Located() == Some(StartEdit(f, w.latest)) && end.latest == StartEdit(f, e(w.latest))
      && w.WorkerFor().value !in end.volumes
  {
    var source := w.WorkerFor().value;
    var edited := EditAfterBackup(w, target, f, e, n);
    CopyOutcome(edited, source, target, f);
    var w1 := edited.world.(staged := Some(w.latest), volumes := edited.world.volumes[target := w.latest]);
    SwitchOutcome(edited.(world := w1, todo := Switching(source, target, f), phase := Replaced), source, target, f);
  }

  /** The migration that the edit finds, and that its remaining turns finish. */
  lemma EditAfterBackup(w: World, target: Node, f: MigrateCalls, e: Edit, n: nat) returns (m: Machine)
    requires w.Settled() && CanMigrate(w, target, f) && Size(MigrateProgram(w, target, f)) <= n
    ensures m.todo == Staging(w.WorkerFor().value, target, f) && m.stream == w.latest
    ensures m.world == w.Stopped().Edited(w.WorkerFor(), e)
    ensures Go(Begin(w, MigrateProgram(w, target, f)), Turns(2) + [FileEdit(e)] + Turns(n)) == Finish(m)
  {
    var start := Begin(w, MigrateProgram(w, target, f));
    m := Request(Next(Next(start)), e);
    assert Size(start.todo) == 2 + Size(Next(Next(start)).todo);
    EditAfterTwo(start, e, n);
  }

  lemma {:induction false} EditAfterTwo(start: Machine, e: Edit, n: nat)
    requires Size(Request(Next(Next(start)), e).todo) <= n
    ensures Go(start, Turns(2) + [FileEdit(e)] + Turns(n)) == Finish(Request(Next(Next(start)), e))
  {
    SixTurns(start);
    GoAppend(start, Turns(2), FileEdit(e));
    GoConcat(start, Turns(2) + [FileEdit(e)], Turns(n));
    TurnsFinish(Request(Next(Next(start)), e), n);
  }

  // ----- a row written back too late -----

  /**
   A change of the configuration that reads the row before a migration and writes it back after
   it, without touching the in-memory copy: the row names the volume that the migration removed.
   */
  lemma {:induction false} LateWriteLosesTheVolume(w: World, target: Node, f: MigrateCalls, n: nat)
    requires w.Settled() && CanMigrate(w, target, f) && f.db.RowWritten? && f.remove.Removed?
    requires Size(MigrateProgram(w, target, f)) <= n
    ensures
      var events := [ReadRow, Operate(MigrateOp(target, f), Turns(n)), WriteRow(|w.loaded|, RowOnly)];
      Run(w, events).row == w.row && Run(w, events).Located().None?
  {
    SourceIsGone(w.RowLoaded(), target, f, n);
    ThreeEvents(w, ReadRow, Operate(MigrateOp(target, f), Turns(n)), WriteRow(|w.loaded|, RowOnly));
  }

  lemma SourceIsGone(w: World, target: Node, f: MigrateCalls, n: nat)
    requires w.row.node.Some? && w.row == On(w.row.node.value) && w.spec == w.row
    requires CanMigrate(w, target, f) && Size(MigrateProgram(w, target, f)) <= n
    requires f.db.RowWritten? && f.remove.Removed?
    ensures
      var moved := Apply(w, Operate(MigrateOp(target, f), Turns(n)));
      w.row.node.value !in moved.volumes && moved.loaded == w.loaded
  {
    MigrationEnds(w, target, f, n);
  }

  lemma ThreeEvents(w: World, a: Event, b: Event, c: Event)
    ensures Run(w, [a, b, c]) == Apply(Apply(Apply(w, a), b), c)
  {
    assert [a, b, c][1..] == [b, c] && [b, c][1..] == [c] && [c][1..] == [];
    assert Run(w, [a, b, c]) == Run(Apply(w, a), [b, c]) == Run(Apply(Apply(w, a), b), [c]);
    var last := Apply(Apply(Apply(w, a), b), c);
    assert Run(Apply(Apply(w, a), b), [c]) == Run(last, []);
  }

  // ----- the smallest examples: two nodes and one file -----

  const FILES: Contents := map["save" := [1]]

  const AT_HOME := World(On("a"), On("a"), Some("a"), None, map["a" := FILES], None, None, {"a", "b"}, FILES, [])

  const BACK := MigrateCalls(false, false, Saved(None), false, false, Restored(map[]), false, RowWritten,
                             Removed(map[]), true, false, Launch((c: Contents) => c, false, false))

  const THERE := BACK.(db := RowUpdateFailed)

  lemma ExamplesApply()
    ensures AT_HOME.Settled() && Reaches(FILES, BACK)
    ensures CanMigrate(AT_HOME, "b", BACK) && CanMigrate(AT_HOME, "b", THERE)
  {
    assert "save" in FILES && FILES["save"] != [];
  }

  /** Turns enough for each of these migrations. */
  ghost function Enough(): nat {
    var apart := Moved(AT_HOME.Stopped(), FILES, "b");
    Size(MigrateProgram(AT_HOME, "b", BACK)) + Size(MigrateProgram(AT_HOME, "b", THERE)) +
    Size(MigrateProgram(apart, "a", BACK))
  }

  lemma MigratingBackExample()
    ensures
      var apart := Apply(AT_HOME, Operate(MigrateOp("b", THERE), Turns(Enough())));
      Apply(apart, Operate(MigrateOp("a", BACK), Turns(Enough()))).Located().None?
  {
    ExamplesApply();
    MigratingBackLosesTheNamedVolume(AT_HOME, "a", "b", THERE, BACK, Enough());
  }

  lemma MissedEditExample()
    ensures
      var e: Edit := c => c["save" := [2]];
      var end := Apply(AT_HOME, Operate(MigrateOp("b", BACK), Turns(2) + [FileEdit(e)] + Turns(Enough())));
      end.Located() == Some(FILES) && end.latest == map["save" := [2]] && !end.Settled()
  {
    var e: Edit := c => c["save" := [2]];
    ExamplesApply();
    assert e(FILES) == map["save" := [2]] && e(FILES)["save"] != FILES["save"];
    MissedEditIsLost(AT_HOME, "b", BACK, e, Enough());
  }

  lemma LateWriteExample()
    ensures
      var events := [ReadRow, Operate(MigrateOp("b", BACK), Turns(Enough())), WriteRow(0, RowOnly)];
      Run(AT_HOME, events).Located().None?
  {
    ExamplesApply();
    LateWriteLosesTheVolume(AT_HOME, "b", BACK, Enough());
  }
}
