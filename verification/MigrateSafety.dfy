/** A migration keeps the contents, whatever fails and whenever requests come. */
module MigrateSafety {
  import opened Common
  import opened Relocation

  predicate MigrateMay(a: Action, source: Node, target: Node, p: Phase) {
    match a
    case Stop => p == Begun
    case Backup(k) => k == source && p == Idle
    case Put(place, _) => place.InStaging? && p == Copied
    case Save(place) => place.InStaging? && p == Copied
    case CreateVolume(k) => k == target && p == Kept
    case Load(place) => place.InStaging? && p == Kept
    case PutVolume(k, _) => k == target && p == Loaded
    case RestoreVolume(k) => k == target && p == Loaded
    case CheckSize(k, _) => k == target && p == Replaced
    case Move(k) => k == target && p == Replaced
    case RowMoved(k) => k == target && p == Switched
    case Damage(k, _) => k == source && p == Named
    case DropVolume(k) => k == source && p == Named
    case DropStaged(_) => true
    case Start(_) => p == Named
    case _ => false
  }

  predicate MigrateFits(todo: Program, source: Node, target: Node, p: Phase, db: RowWrite) {
    match todo
    case Done(ok) => (ok ==> p == Named) && (p == Switched ==> !db.RowWritten?)
    case Then(a, rest) =>
      && MigrateMay(a, source, target, p) && (a.DropStaged? && p != Named ==> rest.Done?)
      && MigrateFits(rest, source, target, PhaseAfter(p, a), db)
  }

  ghost predicate MigrateInv(m: Machine, source: Node, target: Node, db: RowWrite) {
    && MigrateFits(m.todo, source, target, m.phase, db)
    && MigrateNames(m, source, target)
    && MigrateData(m, source, target)
  }

  /** What the row, the memory, the worker handle and the instance say. */
  ghost predicate MigrateNames(m: Machine, source: Node, target: Node) {
    var w, p := m.world, m.phase;
    && source != target && source in w.online && !p.Clearing?
    && w.row == (if p.Named? then On(target) else On(source))
    && w.spec == (if Turned(p) then On(target) else On(source))
    && (if Turned(p) then w.worker == Some(target) else w.worker.Some? ==> w.worker == Some(source))
    && (w.instance.Some? ==>
          || (p.Begun? && w.instance == Some(source) && w.worker.Some?)
          || (p.Named? && w.instance == Some(target)))
  }

  /** Where the contents are while the volume moves. */
  ghost predicate MigrateData(m: Machine, source: Node, target: Node) {
    var w, p := m.world, m.phase;
    && (!p.Named? ==> source in w.volumes && w.volumes[source] == w.latest && m.later == [])
    && (if Early(p) then m.missed == [] else w.latest == EditAll(EditAll(m.copy, m.missed), m.later))
    && (p.Copied? || p.Loaded? ==> m.stream == m.copy)
    && (p.Kept? && m.todo.Then? ==> w.staged == Some(m.copy))
    && (p.Replaced? || p.Switched? ==> target in w.volumes && w.volumes[target] == m.copy)
    && (p.Named? ==> target in w.volumes && w.volumes[target] == EditAll(m.copy, m.later))
  }

  lemma MigrateBegins(w: World, target: Node, f: MigrateCalls)
    requires w.Settled() && MigrateStarts(w, target, f)
    ensures MigrateInv(Begin(w, MigrateProgram(w, target, f)), w.WorkerFor().value, target, f.db)
  {
    var s := w.WorkerFor().value;
    SwitchingFits(s, target, f);
    CopyingFits(s, target, f);
    MigrateSavingFits(f.save, Copying(s, target, f), s, target, f.db);
  }

  lemma SwitchingFits(source: Node, target: Node, f: MigrateCalls)
    ensures MigrateFits(Switching(source, target, f), source, target, Replaced, f.db)
  {
    assert MigrateFits(Finishing(f), source, target, Named, f.db);
    assert MigrateFits(Removing(source, f.remove, Finishing(f)), source, target, Named, f.db);
  }

  lemma CopyingFits(source: Node, target: Node, f: MigrateCalls)
    requires MigrateFits(Switching(source, target, f), source, target, Replaced, f.db)
    ensures MigrateFits(Copying(source, target, f), source, target, Kept, f.db)
  {
    var checking, dropping := Checking(source, target, f), Dropping(f);
    assert MigrateFits(checking, source, target, Replaced, f.db);
    assert MigrateFits(dropping, source, target, Loaded, f.db) && MigrateFits(dropping, source, target, Kept, f.db);
    RestoringFits(f.restore, checking, dropping, source, target, f.db);
  }

  lemma RestoringFits(r: Restore, rest: Program, failed: Program, source: Node, target: Node, db: RowWrite)
    requires MigrateFits(rest, source, target, Replaced, db) && MigrateFits(failed, source, target, Loaded, db)
    ensures MigrateFits(Restoring(target, r, rest, failed), source, target, Loaded, db)
  {
  }

  lemma MigrateSavingFits(s: Save, rest: Program, source: Node, target: Node, db: RowWrite)
    requires MigrateFits(rest, source, target, Kept, db)
    ensures MigrateFits(Saving(InStaging, s, rest), source, target, Copied, db)
  {
    if s.CompressFailed? {
      assert MigrateFits(Then(Put(InStaging, None), Done(false)), source, target, Copied, db);
    }
  }

  lemma MigrateReadTurn(m: Machine, source: Node, target: Node, db: RowWrite)
    requires MigrateInv(m, source, target, db) && m.todo.Then? && (m.todo.first.Stop? || m.todo.first.Backup?)
    ensures MigrateInv(Next(m), source, target, db)
  {
  }

  lemma MigrateDropTurn(m: Machine, source: Node, target: Node, db: RowWrite)
    requires MigrateInv(m, source, target, db) && m.todo.Then? && m.todo.first.DropStaged?
    ensures MigrateInv(Next(m), source, target, db)
  {
  }

  lemma MigrateStageTurn(m: Machine, source: Node, target: Node, db: RowWrite)
    requires MigrateInv(m, source, target, db) && m.todo.Then? && OnStorage(m.todo.first)
    requires !m.todo.first.Stop? && !m.todo.first.Backup? && !m.todo.first.DropStaged?
    ensures MigrateInv(Next(m), source, target, db)
  {
  }

  lemma MigrateFillTurn(m: Machine, source: Node, target: Node, db: RowWrite)
    requires MigrateInv(m, source, target, db) && m.todo.Then?
    requires m.todo.first.PutVolume? || m.todo.first.RestoreVolume?
    ensures MigrateInv(Next(m), source, target, db)
  {
  }

  lemma MigrateCreateTurn(m: Machine, source: Node, target: Node, db: RowWrite)
    requires MigrateInv(m, source, target, db) && m.todo.Then? && m.todo.first.CreateVolume?
    ensures MigrateInv(Next(m), source, target, db)
  {
  }

  lemma MigrateCheckTurn(m: Machine, source: Node, target: Node, db: RowWrite)
    requires MigrateInv(m, source, target, db) && m.todo.Then? && m.todo.first.CheckSize?
    ensures MigrateInv(Next(m), source, target, db)
  {
  }

  lemma MigrateClearTurn(m: Machine, source: Node, target: Node, db: RowWrite)
    requires MigrateInv(m, source, target, db) && m.todo.Then? && Removes(m.todo.first)
    ensures MigrateInv(Next(m), source, target, db)
  {
  }

  /** Starting is an edit through the worker on the target, and changes instance and row. */
  lemma MigrateStartTurn(m: Machine, source: Node, target: Node, db: RowWrite)
    requires MigrateInv(m, source, target, db) && m.todo.Then? && m.todo.first.Start?
    ensures MigrateInv(Next(m), source, target, db)
  {
    var e, w := m.todo.first.launch.edit, Next(m).world;
    EditAllAppend(m.copy, m.later, e);
    EditAllAppend(EditAll(m.copy, m.missed), m.later, e);
    assert w.volumes == m.world.volumes[target := e(m.world.volumes[target])] && w.latest == e(m.world.latest);
    assert MigrateData(Next(m), source, target);
  }

  lemma MigrateMoveTurn(m: Machine, source: Node, target: Node, db: RowWrite)
    requires MigrateInv(m, source, target, db) && m.todo.Then? && m.todo.first.Move?
    ensures MigrateInv(Next(m), source, target, db)
  {
  }

  lemma MigrateRowTurn(m: Machine, source: Node, target: Node, db: RowWrite)
    requires MigrateInv(m, source, target, db) && m.todo.Then? && m.todo.first.RowMoved?
    ensures MigrateInv(Next(m), source, target, db)
  {
  }

  lemma MigrateTurn(m: Machine, source: Node, target: Node, db: RowWrite)
    requires MigrateInv(m, source, target, db)
    ensures MigrateInv(Next(m), source, target, db)
  {
    match m.todo {
      case Done(_) =>
      case Then(a, _) =>
        if a.Stop? || a.Backup? {
          MigrateReadTurn(m, source, target, db);
        } else if a.DropStaged? {
          MigrateDropTurn(m, source, target, db);
        } else if OnStorage(a) {
          MigrateStageTurn(m, source, target, db);
        } else if Removes(a) {
          MigrateClearTurn(m, source, target, db);
        } else if a.PutVolume? || a.RestoreVolume? {
          MigrateFillTurn(m, source, target, db);
        } else if a.CreateVolume? {
          MigrateCreateTurn(m, source, target, db);
        } else if a.CheckSize? {
          MigrateCheckTurn(m, source, target, db);
        } else if a.Start? {
          MigrateStartTurn(m, source, target, db);
        } else if a.Move? {
          MigrateMoveTurn(m, source, target, db);
        } else {
          MigrateRowTurn(m, source, target, db);
        }
    }
  }

  lemma MigrateEditEarly(m: Machine, source: Node, target: Node, e: Edit)
    requires MigrateNames(m, source, target) && MigrateData(m, source, target) && Early(m.phase)
    ensures MigrateData(Request(m, e), source, target)
  {
  }

  lemma MigrateEditMissed(m: Machine, source: Node, target: Node, e: Edit)
    requires MigrateNames(m, source, target) && MigrateData(m, source, target) && InWindow(m.phase)
    ensures MigrateData(Request(m, e), source, target)
  {
    EditAllAppend(m.copy, m.missed, e);
    assert EditAll(EditAll(m.copy, m.missed), []) == EditAll(m.copy, m.missed);
  }

  lemma MigrateEditAfter(m: Machine, source: Node, target: Node, e: Edit)
    requires MigrateNames(m, source, target) && MigrateData(m, source, target) && m.phase.Named?
    ensures MigrateData(Request(m, e), source, target)
  {
    EditAllAppend(m.copy, m.later, e);
    EditAllAppend(EditAll(m.copy, m.missed), m.later, e);
  }

  lemma MigrateEdit(m: Machine, source: Node, target: Node, db: RowWrite, e: Edit)
    requires MigrateInv(m, source, target, db)
    ensures MigrateInv(Request(m, e), source, target, db)
  {
    if m.phase.Named? {
      MigrateEditAfter(m, source, target, e);
    } else if InWindow(m.phase) {
      MigrateEditMissed(m, source, target, e);
    } else {
      MigrateEditEarly(m, source, target, e);
    }
  }

  lemma {:induction false} MigrateGo(m: Machine, source: Node, target: Node, db: RowWrite, ticks: seq<Tick>)
    requires MigrateInv(m, source, target, db) && StoresFresh(m, ticks)
    ensures MigrateInv(Go(m, ticks), source, target, db)
    decreases |ticks|
  {
    if ticks != [] {
      var front, last := ticks[..|ticks| - 1], ticks[|ticks| - 1];
      MigrateGo(m, source, target, db, front);
      match last {
        case Turn => MigrateTurn(Go(m, front), source, target, db);
        case FileEdit(e) => MigrateEdit(Go(m, front), source, target, db, e);
        case LoadRow =>
        case StoreRow(i, part) => CurrentStoreIsIdle(Go(m, front), i, part);
      }
    }
  }

  /**
   A migration at any moment of any schedule. Until the row changes it names the source volume
   with the latest contents. From then on it names the target volume, which holds the copy and
   the later edits: the latest contents exactly when the edits of the window are harmless.
   */
  lemma {:induction false} MigrateSafe(w: World, target: Node, f: MigrateCalls, ticks: seq<Tick>)
    requires w.Settled() && StoresFresh(Begin(w, MigrateProgram(w, target, f)), ticks)
    ensures
      var m := Go(Begin(w, MigrateProgram(w, target, f)), ticks);
      && (m.phase != Named ==> Restarted(m.world).Settled())
      && (m.phase == Named ==>
            && m.world.Located() == Some(EditAll(m.copy, m.later))
            && m.world.latest == EditAll(EditAll(m.copy, m.missed), m.later)
            && (Restarted(m.world).Settled() <==> Harmless(m)))
      && (m.phase != Named || Harmless(m) ==> m.world.CopyExists())
      && (m.todo.Done? ==> (m.world.Settled() <==> Sound(m)) && (m.phase == Switched ==> !f.db.RowWritten?))
  {
    var m := Go(Begin(w, MigrateProgram(w, target, f)), ticks);
    if MigrateStarts(w, target, f) {
      MigrateBegins(w, target, f);
      MigrateGo(Begin(w, MigrateProgram(w, target, f)), w.WorkerFor().value, target, f.db, ticks);
    } else {
      IdleGo(w, ticks);
    }
    assert m.world.RowNamesData() ==> m.world.CopyExists();
  }
}
