/** How operations that nobody interferes with end, and which calls let them end settled. */
module RelocationOutcomes {
  import opened Common
  import opened Relocation
  import opened MigrateSafety
  import opened RelocationRuns

  function Size(p: Program): nat {
    if p.Done? then 0 else 1 + Size(p.rest)
  }

  function Finish(m: Machine): Machine
    decreases Size(m.todo)
  {
    if m.todo.Done? then m else Finish(Next(m))
  }

  /** How an operation ended, in which phase, and the world it left. */
  datatype End = End(todo: Program, phase: Phase, world: World)

  function EndOf(m: Machine): End {
    End(m.todo, m.phase, m.world)
  }

  /** The end of an operation that got to the switch. */
  function Ended(db: RowWrite, ok: bool, written: World, unwritten: World): End {
    if db.RowWritten? then End(Done(ok), Named, written) else End(Done(false), Switched, unwritten)
  }

  lemma {:induction false} GoConcat(m: Machine, a: seq<Tick>, b: seq<Tick>)
    ensures Go(m, a + b) == Go(Go(m, a), b)
    decreases |b|
  {
    if b == [] {
      assert a + b == a;
    } else {
      var front, last := b[..|b| - 1], b[|b| - 1];
      GoConcat(m, a, front);
      assert a + b == (a + front) + [last];
      GoAppend(m, a + front, last);
    }
  }

  /** Enough turns finish the program. */
  lemma {:induction false} TurnsFinish(m: Machine, n: nat)
    requires Size(m.todo) <= n
    ensures Go(m, Turns(n)) == Finish(m)
    decreases n
  {
    if n > 0 {
      var one: seq<Tick> := [Turn];
      assert Turns(n) == one + Turns(n - 1);
      GoConcat(m, one, Turns(n - 1));
      assert one[..0] == [];
      assert Go(m, one) == Next(m);
      TurnsFinish(Next(m), n - 1);
    }
  }

  lemma SaveOutcome(m: Machine, place: Place, partial: Option<Contents>, rest: Program)
    requires m.todo == Saving(place, Saved(partial), rest)
    ensures Finish(m) == Finish(m.(world := WithObject(m.world, place, Some(m.stream)), todo := rest, phase := Kept))
  {
    assert Finish(m) == Finish(Next(m)) == Finish(Next(Next(m)));
  }

  lemma RestoreOutcome(m: Machine, n: Node, partial: Contents, rest: Program, failed: Program)
    requires m.todo == Restoring(n, Restored(partial), rest, failed)
    ensures Finish(m) ==
            Finish(m.(world := m.world.(volumes := m.world.volumes[n := m.stream]), todo := rest, phase := Replaced))
  {
    assert Finish(m) == Finish(Next(m)) == Finish(Next(Next(m)));
    assert m.world.volumes[n := partial][n := m.stream] == m.world.volumes[n := m.stream];
  }

  function AfterRemove(volumes: map<Node, Contents>, n: Node, r: Remove): map<Node, Contents> {
    if r.Removed? then volumes - {n} else Damaged(volumes, n, r.partial)
  }

  lemma RemoveOutcome(m: Machine, n: Node, r: Remove, rest: Program)
    requires m.todo == Removing(n, r, rest)
    ensures Finish(m) == Finish(m.(world := m.world.(volumes := AfterRemove(m.world.volumes, n, r)), todo := rest,
                                   phase := if m.phase.Named? then Named else Clearing))
  {
    if r.Removed? {
      assert Finish(m) == Finish(Next(m)) == Finish(Next(Next(m)));
      assert Damaged(m.world.volumes, n, r.partial) - {n} == m.world.volumes - {n};
    } else {
      assert Finish(m) == Finish(Next(m));
    }
  }

  // ----- what a migration leaves -----

  predicate Reaches(tar: Contents, f: MigrateCalls) {
    f.save.Saved? && !f.createFails && !f.loadFails && f.restore.Restored? && (f.sizeFails || HasBytes(tar))
  }

  predicate CanMigrate(w: World, target: Node, f: MigrateCalls) {
    && MigrateStarts(w, target, f) && !f.backupFails
    && w.WorkerFor().value in w.volumes && Reaches(w.volumes[w.WorkerFor().value], f)
  }

  function Moved(w: World, tar: Contents, target: Node): World {
    w.(staged := Some(tar), volumes := w.volumes[target := tar],
       spec := w.spec.(node := Some(target)), worker := Some(target))
  }

  function Cleaned(w: World, source: Node, target: Node, f: MigrateCalls): World {
    w.(row := w.row.(node := Some(target)), volumes := AfterRemove(w.volumes, source, f.remove),
       staged := if f.stageDeleted then None else w.staged)
  }

  lemma UnpackOutcome(m: Machine, source: Node, target: Node, f: MigrateCalls)
    requires m.todo == Restoring(target, f.restore, Checking(source, target, f), Dropping(f))
    requires f.restore.Restored? && (f.sizeFails || HasBytes(m.stream))
    ensures Finish(m) == Finish(m.(
              world := m.world.(volumes := m.world.volumes[target := m.stream]),
              todo := Switching(source, target, f), phase := Replaced))
  {
    RestoreOutcome(m, target, f.restore.partial, Checking(source, target, f), Dropping(f));
  }

  lemma {:induction false} StageOutcome(m: Machine, source: Node, target: Node, f: MigrateCalls)
    requires m.todo == Staging(source, target, f) && f.save.Saved? && !f.createFails && !f.loadFails
    ensures Finish(m) == Finish(m.(
              phase := Loaded,
              world := m.world.(staged := Some(m.stream), volumes := WithVolume(m.world.volumes, target)),
              todo := Restoring(target, f.restore, Checking(source, target, f), Dropping(f))))
  {
    SaveOutcome(m, InStaging, f.save.partial, Copying(source, target, f));
  }

  /** From the staged copy to the switch, whatever the source volume has become meanwhile. */
  lemma CopyOutcome(m: Machine, source: Node, target: Node, f: MigrateCalls)
    requires m.todo == Staging(source, target, f) && Reaches(m.stream, f)
    ensures Finish(m) == Finish(m.(
              world := m.world.(staged := Some(m.stream), volumes := m.world.volumes[target := m.stream]),
              todo := Switching(source, target, f), phase := Replaced))
  {
    StageOutcome(m, source, target, f);
    var w := m.world.(staged := Some(m.stream), volumes := WithVolume(m.world.volumes, target));
    UnpackOutcome(m.(world := w, phase := Loaded,
                     todo := Restoring(target, f.restore, Checking(source, target, f), Dropping(f))),
                  source, target, f);
    assert w.volumes[target := m.stream] == m.world.volumes[target := m.stream];
  }

  /** The restart at the end of a migration. */
  function Relaunched(w: World, f: MigrateCalls): World {
    if f.wasRunning then AfterLaunch(w, f.start) else w
  }

  /** Whether a migration that wrote its row reports success. */
  predicate Succeeds(f: MigrateCalls) {
    f.wasRunning ==> f.start.started
  }

  lemma {:induction false} CleanOutcome(m: Machine, source: Node, f: MigrateCalls)
    requires m.todo == Removing(source, f.remove, Finishing(f)) && m.phase.Named?
    ensures
      var cleaned := m.world.(volumes := AfterRemove(m.world.volumes, source, f.remove),
                              staged := if f.stageDeleted then None else m.world.staged);
      EndOf(Finish(m)) == End(Done(Succeeds(f)), Named, Relaunched(cleaned, f))
  {
    RemoveOutcome(m, source, f.remove, Finishing(f));
    var removed := m.(world := m.world.(volumes := AfterRemove(m.world.volumes, source, f.remove)),
                      todo := Finishing(f));
    assert Finish(removed) == Finish(Next(removed));
    if f.wasRunning {
      assert Finish(Next(removed)) == Next(Next(removed));
    }
  }

  lemma {:induction false} SwitchOutcome(m: Machine, source: Node, target: Node, f: MigrateCalls)
    requires m.todo == Switching(source, target, f)
    ensures
      var w := m.world.(spec := m.world.spec.(node := Some(target)), worker := Some(target));
      EndOf(Finish(m)) == Ended(f.db, Succeeds(f), Relaunched(Cleaned(w, source, target, f), f), w)
  {
    var moved := Next(m);
    assert Finish(m) == Finish(moved);
    if f.db.RowWritten? {
      assert Finish(moved) == Finish(Next(moved));
      CleanOutcome(Next(moved), source, f);
    }
  }

  /** What a migration that gets past its checks leaves, from any starting state. */
  lemma MigrateOutcome(w: World, target: Node, f: MigrateCalls)
    requires CanMigrate(w, target, f)
    ensures
      var source := w.WorkerFor().value;
      var moved := Moved(w.Stopped(), w.volumes[source], target);
      EndOf(Finish(Begin(w, MigrateProgram(w, target, f)))) ==
      Ended(f.db, Succeeds(f), Relaunched(Cleaned(moved, source, target, f), f), moved)
  {
    var source, start := w.WorkerFor().value, Begin(w, MigrateProgram(w, target, f));
    var read := Next(Next(start));
    assert Finish(start) == Finish(Next(start)) == Finish(read);
    CopyOutcome(read, source, target, f);
    var copied := read.world.(staged := Some(read.stream), volumes := read.world.volumes[target := read.stream]);
    SwitchOutcome(read.(world := copied, todo := Switching(source, target, f), phase := Replaced), source, target, f);
  }

  // ----- what an archive and an unarchive leave -----

  predicate CanArchive(w: World, f: ArchiveCalls) {
    && !w.spec.archived && w.worker.Some? && !f.backupFails && f.save.Saved?
    && w.worker.value in w.volumes
  }

  function Emptied(w: World, n: Node, f: ArchiveCalls): World
    requires n in w.volumes
  {
    w.(archive := Some(w.volumes[n]), volumes := AfterRemove(w.volumes, n, f.remove),
       spec := ARCHIVED, worker := None, instance := None)
  }

  /** What an archive that saves its backup leaves. */
  lemma ArchiveOutcome(w: World, f: ArchiveCalls)
    requires CanArchive(w, f)
    ensures
      var moved := Emptied(w.Stopped(), w.worker.value, f);
      EndOf(Finish(Begin(w, ArchiveProgram(w, f)))) == Ended(f.db, true, moved.(row := ARCHIVED), moved)
  {
    var n, start := w.worker.value, Begin(w, ArchiveProgram(w, f));
    var storing := Persisting(RowVacated, f.db, Done(true));
    var read := Next(Next(start));
    assert Finish(start) == Finish(Next(start)) == Finish(read);
    SaveOutcome(read, InArchive, f.save.partial, Removing(n, f.remove, Then(Vacate, storing)));
    var kept := read.(world := read.world.(archive := Some(read.stream)), phase := Kept,
                      todo := Removing(n, f.remove, Then(Vacate, storing)));
    RemoveOutcome(kept, n, f.remove, Then(Vacate, storing));
    VacateOutcome(kept.(world := kept.world.(volumes := AfterRemove(kept.world.volumes, n, f.remove)),
                        phase := Clearing, todo := Then(Vacate, storing)), f.db);
  }

  lemma VacateOutcome(m: Machine, db: RowWrite)
    requires m.todo == Then(Vacate, Persisting(RowVacated, db, Done(true)))
    ensures
      var moved := m.world.(spec := ARCHIVED, worker := None, instance := None);
      EndOf(Finish(m)) == Ended(db, true, moved.(row := ARCHIVED), moved)
  {
    assert Finish(m) == Finish(Next(m));
    if db.RowWritten? {
      assert Finish(Next(m)) == Next(Next(m));
    }
  }

  predicate CanUnarchive(w: World, onto: Option<Node>, f: UnarchiveCalls) {
    UnarchiveStarts(w, onto, f) && !f.loadFails && w.archive.Some? && f.restore.Restored?
  }

  /** What an unarchive that unpacks its archive leaves. */
  lemma UnarchiveOutcome(w: World, onto: Option<Node>, f: UnarchiveCalls)
    requires CanUnarchive(w, onto, f)
    ensures
      var n := UnarchiveTarget(onto, f).value;
      var moved := w.(volumes := w.volumes[n := w.archive.value], spec := On(n), worker := Some(n));
      EndOf(Finish(Begin(w, UnarchiveProgram(w, onto, f)))) == Ended(f.db, true, moved.(row := On(n)), moved)
  {
    var n := UnarchiveTarget(onto, f).value;
    UnpackArchiveOutcome(w, onto, f);
    SettleOutcome(Unpacked(w, n, f.db), n, f.db);
  }

  function Unpacked(w: World, n: Node, db: RowWrite): Machine
    requires w.archive.Some?
  {
    Machine(w.(volumes := w.volumes[n := w.archive.value]), w.archive.value,
            Then(Settle(n), Persisting(RowSettled(n), db, Done(true))), Replaced, map[], [], [])
  }

  lemma UnpackArchiveOutcome(w: World, onto: Option<Node>, f: UnarchiveCalls)
    requires CanUnarchive(w, onto, f)
    ensures Finish(Begin(w, UnarchiveProgram(w, onto, f))) ==
            Finish(Unpacked(w, UnarchiveTarget(onto, f).value, f.db))
  {
    var n := UnarchiveTarget(onto, f).value;
    var read := ArchiveLoaded(w, n, f);
    assert Finish(Begin(w, UnarchiveProgram(w, onto, f))) == Finish(read) by {
      LoadArchiveOutcome(w, onto, f);
    }
    var rest := Then(Settle(n), Persisting(RowSettled(n), f.db, Done(true)));
    RestoreOutcome(read, n, f.restore.partial, rest, Done(false));
    assert read.world.volumes[n := read.stream] == w.volumes[n := w.archive.value];
    var filled := read.world.(volumes := read.world.volumes[n := read.stream]);
    assert Unpacked(w, n, f.db) == read.(world := filled, todo := rest, phase := Replaced);
  }

  function ArchiveLoaded(w: World, n: Node, f: UnarchiveCalls): Machine
    requires w.archive.Some?
  {
    Machine(w.(volumes := WithVolume(w.volumes, n)), w.archive.value, Unpacking(n, f), Loaded, map[], [], [])
  }

  lemma LoadArchiveOutcome(w: World, onto: Option<Node>, f: UnarchiveCalls)
    requires CanUnarchive(w, onto, f)
    ensures Finish(Begin(w, UnarchiveProgram(w, onto, f))) ==
            Finish(ArchiveLoaded(w, UnarchiveTarget(onto, f).value, f))
  {
    var start := Begin(w, UnarchiveProgram(w, onto, f));
    assert Finish(start) == Finish(Next(start)) == Finish(Next(Next(start)));
    assert Next(Next(start)) == ArchiveLoaded(w, UnarchiveTarget(onto, f).value, f);
  }

  lemma SettleOutcome(m: Machine, n: Node, db: RowWrite)
    requires m.todo == Then(Settle(n), Persisting(RowSettled(n), db, Done(true)))
    ensures
      var moved := m.world.(spec := On(n), worker := Some(n));
      EndOf(Finish(m)) == Ended(db, true, moved.(row := On(n)), moved)
  {
    assert Finish(m) == Finish(Next(m));
    if db.RowWritten? {
      assert Finish(Next(m)) == Next(Next(m));
    }
  }

  /** With a node asked for, an unarchive goes there, whatever the ranking says. */
  lemma UnarchiveGoesWhereAsked(w: World, n: Node, f: UnarchiveCalls)
    requires w.spec.archived && w.archive.Some? && n in w.online
    requires !f.createFails && !f.loadFails && f.restore.Restored? && f.db.RowWritten?
    ensures
      EndOf(Finish(Begin(w, UnarchiveProgram(w, Some(n), f)))) ==
      End(Done(true), Named, w.(row := Record(Some(n), false), spec := Record(Some(n), false), worker := Some(n),
                                volumes := w.volumes[n := w.archive.value]))
  {
    UnarchiveOutcome(w, Some(n), f);
  }

  /** Without one, to the first of the ranking; a node that is offline, or an empty ranking, is refused. */
  lemma UnarchiveGoesToTheFirstRanked(w: World, f: UnarchiveCalls)
    requires w.spec.archived && w.archive.Some?
    requires !f.createFails && !f.loadFails && f.restore.Restored? && f.db.RowWritten?
    ensures
      EndOf(Finish(Begin(w, UnarchiveProgram(w, None, f)))) ==
      if f.ranked == [] || f.ranked[0] !in w.online then End(Done(false), Begun, w)
      else
        var home := Record(Some(f.ranked[0]), false);
        End(Done(true), Named, w.(row := home, spec := home, worker := home.node,
                                  volumes := w.volumes[f.ranked[0] := w.archive.value]))
  {
    if f.ranked != [] && f.ranked[0] in w.online {
      UnarchiveOutcome(w, None, f);
    }
  }

  /** What each operation refuses to begin. */
  lemma RefusedExactly(w: World, n: Node, a: ArchiveCalls, u: UnarchiveCalls, f: MigrateCalls)
    ensures ArchiveProgram(w, a) == Done(false) <==> w.spec.archived || w.worker == None
    ensures UnarchiveProgram(w, Some(n), u) == Done(false) <==> !w.spec.archived || n !in w.online || u.createFails
    ensures MigrateProgram(w, n, f) == Done(false) <==>
            || w.spec.node == None || w.spec.node == Some(n) || f.rejected
            || n !in w.online || w.row.node == None || w.row.node.value !in w.online
  {
  }

  /** A migration all of whose calls succeed, from a settled gameserver with a file that is not empty. */
  lemma {:induction false} MigrationMovesEverything(w: World, source: Node, target: Node, f: MigrateCalls, path: string)
    requires w.Settled() && w.row == Record(Some(source), false) && source != target && {source, target} <= w.online
    requires !f.rejected && !f.backupFails && f.save.Saved? && !f.createFails && !f.loadFails && f.restore.Restored?
    requires f.db.RowWritten? && f.remove.Removed? && f.stageDeleted && f.wasRunning && f.start.started
    requires path in w.latest && w.latest[path] != []
    ensures
      var home, latest := Record(Some(target), false), f.start.edit(w.latest);
      EndOf(Finish(Begin(w, MigrateProgram(w, target, f)))) ==
      End(Done(true), Named, w.(spec := home, row := home, worker := Some(target), instance := Some(target),
                                volumes := w.volumes[target := latest] - {source}, staged := None, latest := latest))
  {
    var latest := f.start.edit(w.latest);
    MigrateOutcome(w, target, f);
    assert (w.volumes[target := w.latest] - {source})[target := latest] == w.volumes[target := latest] - {source};
  }

  // ----- which calls let an operation end settled -----

  /** Whether the calls let an operation get to the switch. */
  predicate Switches(w: World, op: Op) {
    match op
    case ArchiveOp(f) => CanArchive(w, f)
    case UnarchiveOp(onto, f) => CanUnarchive(w, onto, f)
    case MigrateOp(target, f) => CanMigrate(w, target, f)
  }

  /** The program has no step that moves the memory. */
  predicate NeverTurns(todo: Program) {
    todo.Then? ==>
      && !todo.first.Vacate? && !todo.first.Settle? && !todo.first.Move?
      && !todo.first.RowVacated? && !todo.first.RowSettled? && !todo.first.RowMoved?
      && NeverTurns(todo.rest)
  }

  lemma {:induction false} FinishNeverTurns(m: Machine)
    requires NeverTurns(m.todo) && !Turned(m.phase)
    ensures !Turned(Finish(m).phase)
    decreases Size(m.todo)
  {
    if m.todo.Then? {
      FinishNeverTurns(Next(m));
    }
  }

  lemma FailedSaveNeverTurns(place: Place, s: Save, rest: Program)
    requires !s.Saved?
    ensures NeverTurns(Saving(place, s, rest))
  {
    if s.CompressFailed? {
      assert NeverTurns(Then(Put(place, None), Done(false)));
    }
  }

  lemma ArchiveStaysUnless(w: World, f: ArchiveCalls)
    requires w.Settled() && !CanArchive(w, f)
    ensures !Turned(Finish(Begin(w, ArchiveProgram(w, f))).phase)
  {
    var start := Begin(w, ArchiveProgram(w, f));
    if !w.spec.archived && w.worker.Some? && !f.backupFails && !f.save.Saved? {
      FailedSaveNeverTurns(InArchive, f.save, Removing(w.worker.value, f.remove,
                           Then(Vacate, Persisting(RowVacated, f.db, Done(true)))));
    }
    FinishNeverTurns(start);
  }

  lemma UnarchiveStaysUnless(w: World, onto: Option<Node>, f: UnarchiveCalls)
    requires w.Settled() && !CanUnarchive(w, onto, f)
    ensures !Turned(Finish(Begin(w, UnarchiveProgram(w, onto, f))).phase)
  {
    if UnarchiveStarts(w, onto, f) && !f.loadFails {
      assert !f.restore.Restored?;
      assert NeverTurns(Unpacking(UnarchiveTarget(onto, f).value, f));
    }
    FinishNeverTurns(Begin(w, UnarchiveProgram(w, onto, f)));
  }

  lemma CopyingNeverTurns(source: Node, target: Node, f: MigrateCalls)
    requires f.createFails || f.loadFails || !f.restore.Restored?
    ensures NeverTurns(Copying(source, target, f))
  {
    if !f.createFails && !f.loadFails {
      assert NeverTurns(Then(PutVolume(target, f.restore.left), Dropping(f)));
      assert NeverTurns(Restoring(target, f.restore, Checking(source, target, f), Dropping(f)));
    }
  }

  lemma StagingNeverTurns(source: Node, target: Node, f: MigrateCalls)
    requires !f.save.Saved? || f.createFails || f.loadFails || !f.restore.Restored?
    ensures NeverTurns(Staging(source, target, f))
  {
    if f.save.Saved? {
      CopyingNeverTurns(source, target, f);
      assert NeverTurns(Then(Save(InStaging), Copying(source, target, f)));
    } else {
      FailedSaveNeverTurns(InStaging, f.save, Copying(source, target, f));
    }
  }

  /** An empty copy ends at the size check. */
  lemma EmptyCopyStays(m: Machine, source: Node, target: Node, f: MigrateCalls)
    requires m.todo == Staging(source, target, f) && f.save.Saved? && !f.createFails && !f.loadFails
    requires f.restore.Restored? && !f.sizeFails && !HasBytes(m.stream)
    ensures !Turned(Finish(m).phase)
  {
    StageOutcome(m, source, target, f);
    var staged := m.(world := m.world.(staged := Some(m.stream), volumes := WithVolume(m.world.volumes, target)),
                     phase := Loaded, todo := Restoring(target, f.restore, Checking(source, target, f), Dropping(f)));
    RestoreOutcome(staged, target, f.restore.partial, Checking(source, target, f), Dropping(f));
    var filled := staged.(world := staged.world.(volumes := staged.world.volumes[target := m.stream]),
                          todo := Checking(source, target, f), phase := Replaced);
    assert Finish(filled) == Finish(Next(filled)) == Next(filled);
  }

  lemma MigrateStaysUnless(w: World, target: Node, f: MigrateCalls)
    requires w.Settled() && !CanMigrate(w, target, f)
    ensures !Turned(Finish(Begin(w, MigrateProgram(w, target, f))).phase)
  {
    var start := Begin(w, MigrateProgram(w, target, f));
    if MigrateStarts(w, target, f) && !f.backupFails {
      var source, read := w.WorkerFor().value, Next(Next(start));
      assert Finish(start) == Finish(Next(start)) == Finish(read);
      if f.save.Saved? && !f.createFails && !f.loadFails && f.restore.Restored? {
        EmptyCopyStays(read, source, target, f);
      } else {
        StagingNeverTurns(source, target, f);
        FinishNeverTurns(read);
      }
    } else {
      FinishNeverTurns(start);
    }
  }

  /** An operation left alone gets to the switch exactly if the calls before it succeed. */
  lemma TurnsExactly(w: World, op: Op)
    requires w.Settled()
    ensures Turned(Finish(Begin(w, ProgramOf(w, op))).phase) <==> Switches(w, op)
    ensures Switches(w, op) ==>
              (Finish(Begin(w, ProgramOf(w, op))).phase.Named? <==> DbOf(op).RowWritten?)
  {
    match op {
      case ArchiveOp(f) =>
        if CanArchive(w, f) { ArchiveOutcome(w, f); } else { ArchiveStaysUnless(w, f); }
      case UnarchiveOp(onto, f) =>
        if CanUnarchive(w, onto, f) { UnarchiveOutcome(w, onto, f); } else { UnarchiveStaysUnless(w, onto, f); }
      case MigrateOp(target, f) =>
        if CanMigrate(w, target, f) { MigrateOutcome(w, target, f); } else { MigrateStaysUnless(w, target, f); }
    }
  }

  lemma {:induction false} FinishIsDone(m: Machine)
    ensures Finish(m).todo.Done?
    decreases Size(m.todo)
  {
    if m.todo.Then? {
      FinishIsDone(Next(m));
    }
  }

  /**
   An operation that nobody interferes with ends settled for every pattern of failing calls but
   one: all calls up to the switch succeed, and the row write fails.
   */
  lemma AloneSettledExactly(w: World, op: Op, n: nat)
    requires w.Settled() && Size(ProgramOf(w, op)) <= n
    ensures Apply(w, Operate(op, Turns(n))).Settled() <==> (Switches(w, op) ==> DbOf(op).RowWritten?)
  {
    var start := Begin(w, ProgramOf(w, op));
    TurnsFinish(start, n);
    FinishIsDone(start);
    TurnsAreFresh(start, n);
    OpSafe(w, op, Turns(n));
    TurnsMissNothing(start, [], n);
    assert [] + Turns(n) == Turns(n) && Go(start, []) == start;
    TurnsExactly(w, op);
    var m := Finish(start);
    assert EditAll(m.copy, []) == m.copy;
  }

  /** A migration whose size check runs and finds no bytes leaves row and memory on the source. */
  lemma {:induction false} EmptyMigrationStays(w: World, target: Node, f: MigrateCalls)
    requires w.Settled() && !f.sizeFails && forall p :: p in w.latest ==> w.latest[p] == []
    ensures
      var end := Finish(Begin(w, MigrateProgram(w, target, f)));
      (end.todo, end.world.row, end.world.spec) == (Done(false), w.row, w.spec)
  {
    var start := Begin(w, MigrateProgram(w, target, f));
    var n := Size(start.todo);
    TurnsFinish(start, n);
    FinishIsDone(start);
    MigrateStaysUnless(w, target, f);
    if MigrateStarts(w, target, f) {
      TurnsAreFresh(start, n);
      MigrateBegins(w, target, f);
      MigrateGo(start, w.WorkerFor().value, target, f.db, Turns(n));
    }
  }
}
