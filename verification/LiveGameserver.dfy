/**
 The controller object that runs archive, unarchive and migrate, with other requests editing
 files and rewriting the row between any two of its steps. It keeps the machine of module Relocation in lockstep.
 */
module LiveGameserver {
  import opened Common
  import opened Relocation
  import opened RelocationRuns

  class LiveGameserver {
    var spec: Record
    var row: Record
    var worker: Option<Node>
    var instance: Option<Node>
    var volumes: map<Node, Contents>
    var archive: Option<Contents>
    var staged: Option<Contents>
    var online: set<Node>
    ghost var latest: Contents
    /** Rows that requests changing the configuration have read. */
    var loaded: seq<Record>

    /** What the pipe of the running operation carries. */
    var stream: Contents

    ghost var begun: Machine
    ghost var ticks: seq<Tick>

    ghost function Snap(): World
      reads this
    {
      World(spec, row, worker, instance, volumes, archive, staged, online, latest, loaded)
    }

    ghost function Now(): Machine
      reads this
    {
      Go(begun, ticks)
    }

    /** The object is where the machine is, with this left to do. */
    ghost predicate At(todo: Program)
      reads this
    {
      Now().world == Snap() && Now().stream == stream && Now().todo == todo
    }

    /** A freshly created gameserver: row persisted, empty volume on its node. */
    constructor (home: Node)
      ensures Snap().Settled() && row == On(home) && worker == Some(home)
    {
      spec, row := On(home), On(home);
      worker, instance := Some(home), None;
      volumes, archive, staged := map[home := map[]], None, None;
      online, stream, loaded := {home}, map[], [];
      latest := map[];
      begun := Begin(World(On(home), On(home), None, None, map[], None, None, {}, map[], []), Done(true));
      ticks := [];
    }

    // ----- what happens between and at the steps -----

    /** A file request, which finds its worker through the row. */
    method EditFiles(e: Edit)
      modifies this`volumes, this`latest
      ensures Snap() == old(Snap()).Edited(old(Snap()).WorkerFor(), e)
      ensures if row.node.Some? && row.node.value in online then
                var n := row.node.value;
                && latest == e(old(latest))
                && volumes == old(volumes)[n := e(if n in old(volumes) then old(volumes)[n] else map[])]
              else latest == old(latest) && volumes == old(volumes)
    {
      if row.node.Some? && row.node.value in online {
        var n := row.node.value;
        volumes := volumes[n := e(if n in volumes then volumes[n] else map[])];
        latest := e(latest);
      }
    }

    /** A request that changes the configuration reads the row. */
    method ReadRow()
      modifies this`loaded
      ensures Snap() == old(Snap()).RowLoaded() && loaded == old(loaded) + [row]
    {
      loaded := loaded + [row];
    }

    /** It writes the whole row back; a change of the configuration then also makes it the in-memory copy. */
    method WriteRow(i: nat, part: Part)
      modifies this`row, this`spec
      ensures Snap() == old(Snap()).RowStored(i, part)
      ensures row == if i < |loaded| && part in {RowOnly, RowAndMemory} then loaded[i] else old(row)
      ensures spec == if i < |loaded| && part in {MemoryOnly, RowAndMemory} then loaded[i] else old(spec)
    {
      if i < |loaded| {
        if !part.MemoryOnly? {
          row := loaded[i];
        }
        if !part.RowOnly? {
          spec := loaded[i];
        }
      }
    }

    method OneRequest(ghost todo: Program)
      requires At(todo)
      modifies this`volumes, this`latest, this`loaded, this`row, this`spec, this`ticks
      ensures At(todo)
    {
      var kind: int := *;
      if kind == 0 {
        var e: Edit := *;
        GoAppend(begun, ticks, FileEdit(e));
        EditFiles(e);
        ticks := ticks + [FileEdit(e)];
      } else if kind == 1 {
        GoAppend(begun, ticks, LoadRow);
        ReadRow();
        ticks := ticks + [LoadRow];
      } else {
        var i: nat, part: Part := *, *;
        GoAppend(begun, ticks, StoreRow(i, part));
        WriteRow(i, part);
        ticks := ticks + [StoreRow(i, part)];
      }
    }

    /** Any number of requests by anybody. */
    method OtherRequests(ghost todo: Program)
      requires At(todo)
      modifies this`volumes, this`latest, this`loaded, this`row, this`spec, this`ticks
      ensures At(todo)
    {
      var count: int := *;
      while count > 0
        invariant At(todo)
      {
        count := count - 1;
        OneRequest(todo);
      }
    }

    ghost method Turned(todo: Program)
      requires Now().todo == todo
      requires Next(Now()).world == Snap() && Next(Now()).stream == stream
      modifies this`ticks
      ensures At(Next(old(Now())).todo)
    {
      GoAppend(begun, ticks, Turn);
      ticks := ticks + [Turn];
    }

    // ----- steps -----

    /** `stopIfRunning`. */
    method StopIfRunning(ghost rest: Program)
      requires At(Then(Stop, rest))
      modifies this
      ensures At(rest) && begun == old(begun)
      ensures worker == old(worker) && instance == if worker.Some? then None else old(instance)
    {
      OtherRequests(Then(Stop, rest));
      if worker.Some? {
        instance := None;
      }
      Turned(Then(Stop, rest));
    }

    method BackupVolume(n: Node, ghost rest: Program) returns (ok: bool)
      requires At(Then(Backup(n), rest))
      modifies this
      ensures At(if ok then rest else Done(false)) && begun == old(begun)
      ensures ok <==> n in volumes
      ensures ok ==> stream == volumes[n]
    {
      OtherRequests(Then(Backup(n), rest));
      ok := n in volumes;
      if ok {
        stream := volumes[n];
      }
      Turned(Then(Backup(n), rest));
    }

    method PutObject(place: Place, data: Option<Contents>, ghost rest: Program)
      requires At(Then(Put(place, data), rest))
      modifies this
      ensures At(rest) && begun == old(begun)
      ensures stream == old(stream) && data == if place == InArchive then archive else staged
    {
      OtherRequests(Then(Put(place, data), rest));
      if place.InArchive? {
        archive := data;
      } else {
        staged := data;
      }
      Turned(Then(Put(place, data), rest));
    }

    /** Stream the backup through the compressor into storage. */
    method SaveObject(place: Place, s: Save, ghost rest: Program) returns (ok: bool)
      requires At(Saving(place, s, rest))
      modifies this
      ensures ok == s.Saved? && At(if ok then rest else Done(false)) && begun == old(begun)
      ensures ok ==> Some(old(stream)) == if place == InArchive then archive else staged
    {
      ok := s.Saved?;
      match s {
        case Saved(partial) =>
          PutObject(place, partial, Then(Save(place), rest));
          OtherRequests(Then(Save(place), rest));
          if place.InArchive? {
            archive := Some(stream);
          } else {
            staged := Some(stream);
          }
          Turned(Then(Save(place), rest));
        case SaveFailed(partial, left) =>
          PutObject(place, partial, Then(Put(place, left), Done(false)));
          PutObject(place, left, Done(false));
        case CompressFailed(partial, garbage, deleted) =>
          ghost var after := if deleted then Then(Put(place, None), Done(false)) else Done(false);
          PutObject(place, partial, Then(Put(place, Some(garbage)), after));
          PutObject(place, Some(garbage), after);
          if deleted {
            PutObject(place, None, Done(false));
          }
      }
    }

    method CreateVolume(n: Node, ghost rest: Program)
      requires At(Then(Action.CreateVolume(n), rest))
      modifies this
      ensures At(rest) && begun == old(begun) && n in volumes
    {
      OtherRequests(Then(Action.CreateVolume(n), rest));
      if n !in volumes {
        volumes := volumes[n := map[]];
      }
      Turned(Then(Action.CreateVolume(n), rest));
    }

    method LoadObject(place: Place, ghost rest: Program) returns (ok: bool)
      requires At(Then(Load(place), rest))
      modifies this
      ensures At(if ok then rest else Done(false)) && begun == old(begun)
      ensures if ok then Some(stream) == if place == InArchive then archive else staged
              else None == if place == InArchive then archive else staged
    {
      OtherRequests(Then(Load(place), rest));
      var data := if place.InArchive? then archive else staged;
      ok := data.Some?;
      if ok {
        stream := data.value;
      }
      Turned(Then(Load(place), rest));
    }

    method FillVolume(n: Node, c: Contents, ghost rest: Program)
      requires At(Then(PutVolume(n, c), rest))
      modifies this
      ensures At(rest) && begun == old(begun) && stream == old(stream)
    {
      OtherRequests(Then(PutVolume(n, c), rest));
      volumes := volumes[n := c];
      Turned(Then(PutVolume(n, c), rest));
    }

    /** Clear the volume and unpack the stream into it. */
    method RestoreVolume(n: Node, r: Restore, ghost rest: Program, ghost failed: Program) returns (ok: bool)
      requires At(Restoring(n, r, rest, failed))
      modifies this
      ensures ok == r.Restored? && At(if ok then rest else failed) && begun == old(begun)
      ensures ok ==> n in volumes && volumes[n] == old(stream)
    {
      ok := r.Restored?;
      match r {
        case Restored(partial) =>
          FillVolume(n, partial, Then(Action.RestoreVolume(n), rest));
          OtherRequests(Then(Action.RestoreVolume(n), rest));
          volumes := volumes[n := stream];
          Turned(Then(Action.RestoreVolume(n), rest));
        case RestoreFailed(partial, left) =>
          FillVolume(n, partial, Then(PutVolume(n, left), failed));
          FillVolume(n, left, failed);
      }
    }

    /** The volume-size check; an empty volume ends the migration and its staged object. */
    method CheckVolume(n: Node, stageDeleted: bool, ghost rest: Program) returns (ok: bool)
      requires At(Then(CheckSize(n, stageDeleted), rest))
      modifies this
      ensures At(if ok then rest else Done(false)) && begun == old(begun)
      ensures ok <==> n in volumes && exists path :: path in volumes[n] && volumes[n][path] != []
      ensures staged == if !ok && stageDeleted then None else old(staged)
    {
      OtherRequests(Then(CheckSize(n, stageDeleted), rest));
      ok := HasBytes(if n in volumes then volumes[n] else map[]);
      if !ok && stageDeleted {
        staged := None;
      }
      Turned(Then(CheckSize(n, stageDeleted), rest));
    }

    method DamageVolume(n: Node, left: Contents, ghost rest: Program)
      requires At(Then(Damage(n, left), rest))
      modifies this
      ensures At(rest) && begun == old(begun)
    {
      OtherRequests(Then(Damage(n, left), rest));
      if n in volumes {
        volumes := volumes[n := left];
      }
      Turned(Then(Damage(n, left), rest));
    }

    method RemoveVolume(n: Node, r: Remove, ghost rest: Program)
      requires At(Removing(n, r, rest))
      modifies this
      ensures At(rest) && begun == old(begun)
      ensures r.Removed? ==> n !in volumes
    {
      DamageVolume(n, r.partial, if r.Removed? then Then(DropVolume(n), rest) else rest);
      if r.Removed? {
        OtherRequests(Then(DropVolume(n), rest));
        volumes := volumes - {n};
        Turned(Then(DropVolume(n), rest));
      }
    }

    /** Archived: memory points to no node. */
    method PointNowhere(ghost rest: Program)
      requires At(Then(Vacate, rest))
      modifies this
      ensures At(rest) && begun == old(begun)
      ensures spec == Record(None, true) && worker == None && instance == None
    {
      OtherRequests(Then(Vacate, rest));
      spec, worker, instance := ARCHIVED, None, None;
      Turned(Then(Vacate, rest));
    }

    /** Unarchived onto a node. */
    method PointTo(n: Node, ghost rest: Program)
      requires At(Then(Settle(n), rest))
      modifies this
      ensures At(rest) && begun == old(begun)
      ensures spec == Record(Some(n), false) && worker == Some(n)
    {
      OtherRequests(Then(Settle(n), rest));
      spec, worker := On(n), Some(n);
      Turned(Then(Settle(n), rest));
    }

    /** Migrated to a node. */
    method MoveTo(n: Node, ghost rest: Program)
      requires At(Then(Move(n), rest))
      modifies this
      ensures At(rest) && begun == old(begun)
      ensures spec.node == Some(n) && worker == Some(n) && instance == old(instance)
    {
      OtherRequests(Then(Move(n), rest));
      spec, worker := spec.(node := Some(n)), Some(n);
      Turned(Then(Move(n), rest));
    }

    /** The row is loaded, changed and written. */
    method PersistRow(step: Action, db: RowWrite, ghost rest: Program) returns (ok: bool)
      requires At(Persisting(step, db, rest)) && (step.RowVacated? || step.RowSettled? || step.RowMoved?)
      modifies this
      ensures ok == db.RowWritten? && At(if ok then rest else Done(false)) && begun == old(begun)
      ensures ok ==> match step
                     case RowVacated => row == Record(None, true)
                     case RowSettled(n) => row == Record(Some(n), false)
                     case RowMoved(n) => row.node == Some(n)
      ensures !ok ==> row == old(row)
    {
      ok := db.RowWritten?;
      if ok {
        OtherRequests(Then(step, rest));
        match step {
          case RowVacated => row := ARCHIVED;
          case RowSettled(n) => row := On(n);
          case RowMoved(n) => row := row.(node := Some(n));
        }
        Turned(Then(step, rest));
      }
    }

    method DeleteStaged(deleted: bool, ghost rest: Program)
      requires At(Then(DropStaged(deleted), rest))
      modifies this
      ensures At(rest) && begun == old(begun)
      ensures staged == if deleted then None else old(staged)
    {
      OtherRequests(Then(DropStaged(deleted), rest));
      if deleted {
        staged := None;
      }
      Turned(Then(DropStaged(deleted), rest));
    }

    /** `executeStart`: changes the volume, runs an instance, saves the row. */
    method LaunchInstance(l: Launch)
      modifies this`volumes, this`latest, this`instance, this`row
      ensures Snap() == AfterLaunch(old(Snap()), l)
      ensures instance == if worker.Some? && l.started then worker else old(instance)
      ensures row == if worker.Some? && l.rowSaved then spec else old(row)
      ensures if worker.Some? then
                var n := worker.value;
                && latest == l.edit(old(latest))
                && volumes == old(volumes)[n := l.edit(if n in old(volumes) then old(volumes)[n] else map[])]
              else latest == old(latest) && volumes == old(volumes)
    {
      if worker.Some? {
        var n := worker.value;
        volumes := volumes[n := l.edit(if n in volumes then volumes[n] else map[])];
        latest := l.edit(latest);
        if l.started {
          instance := worker;
        }
        if l.rowSaved {
          row := spec;
        }
      }
    }

    method StartInstance(l: Launch, ghost rest: Program)
      requires At(Then(Start(l), rest))
      modifies this
      ensures At(rest) && begun == old(begun)
    {
      OtherRequests(Then(Start(l), rest));
      LaunchInstance(l);
      Turned(Then(Start(l), rest));
    }

    // ----- operations -----

    /** A new operation with an empty pipe. */
    method Starting(ghost todo: Program)
      modifies this`begun, this`ticks, this`stream
      ensures begun == Begin(Snap(), todo) && At(todo)
    {
      stream := map[];
      begun, ticks := Begin(Snap(), todo), [];
    }

    method Archive(f: ArchiveCalls) returns (ok: bool)
      modifies this
      ensures begun == Begin(old(Snap()), ArchiveProgram(old(Snap()), f)) && At(Done(ok))
    {
      Starting(ArchiveProgram(Snap(), f));
      if spec.archived || worker.None? {
        return false;
      }
      var w := worker.value;
      StopIfRunning(Now().todo.rest);
      if f.backupFails {
        return false;
      }
      ok := BackupVolume(w, Archiving(w, f));
      if ok {
        ok := StoreAway(w, f);
      }
    }

    /** From the backup on. */
    method StoreAway(w: Node, f: ArchiveCalls) returns (ok: bool)
      requires At(Archiving(w, f))
      modifies this
      ensures At(Done(ok)) && begun == old(begun)
    {
      ghost var storing := Persisting(RowVacated, f.db, Done(true));
      ok := SaveObject(InArchive, f.save, Removing(w, f.remove, Then(Vacate, storing)));
      if !ok {
        return;
      }
      RemoveVolume(w, f.remove, Then(Vacate, storing));
      PointNowhere(storing);
      ok := PersistRow(RowVacated, f.db, Done(true));
    }

    method Unarchive(onto: Option<Node>, f: UnarchiveCalls) returns (ok: bool)
      modifies this
      ensures begun == Begin(old(Snap()), UnarchiveProgram(old(Snap()), onto, f)) && At(Done(ok))
    {
      Starting(UnarchiveProgram(Snap(), onto, f));
      if !spec.archived {
        return false;
      }
      var target := onto;
      if target.None? {
        if f.ranked == [] {
          return false;
        }
        target := Some(f.ranked[0]);
      }
      var n := target.value;
      if n !in online || f.createFails {
        return false;
      }
      CreateVolume(n, Now().todo.rest);
      if f.loadFails {
        return false;
      }
      ok := LoadObject(InArchive, Unpacking(n, f));
      if ok {
        ok := Unpack(n, f);
      }
    }

    /** From the loaded archive on. */
    method Unpack(n: Node, f: UnarchiveCalls) returns (ok: bool)
      requires At(Unpacking(n, f))
      modifies this
      ensures At(Done(ok)) && begun == old(begun)
    {
      ghost var storing := Persisting(RowSettled(n), f.db, Done(true));
      ok := RestoreVolume(n, f.restore, Then(Settle(n), storing), Done(false));
      if !ok {
        return;
      }
      PointTo(n, storing);
      ok := PersistRow(RowSettled(n), f.db, Done(true));
    }

    method Migrate(target: Node, f: MigrateCalls) returns (ok: bool)
      modifies this
      ensures begun == Begin(old(Snap()), MigrateProgram(old(Snap()), target, f)) && At(Done(ok))
    {
      Starting(MigrateProgram(Snap(), target, f));
      if spec.node.None? || spec.node == Some(target) || f.rejected || target !in online {
        return false;
      }
      if row.node.None? || row.node.value !in online {
        return false;
      }
      var source := row.node.value;
      StopIfRunning(Now().todo.rest);
      if f.backupFails {
        return false;
      }
      ok := BackupVolume(source, Staging(source, target, f));
      if !ok {
        return;
      }
      ok := SaveObject(InStaging, f.save, Copying(source, target, f));
      if ok {
        ok := Copy(source, target, f);
      }
    }

    /** From the staged copy on. */
    method Copy(source: Node, target: Node, f: MigrateCalls) returns (ok: bool)
      requires At(Copying(source, target, f))
      modifies this
      ensures At(Done(ok)) && begun == old(begun)
    {
      if f.createFails {
        DeleteStaged(f.stageDeleted, Done(false));
        return false;
      }
      CreateVolume(target, Now().todo.rest);
      if f.loadFails {
        DeleteStaged(f.stageDeleted, Done(false));
        return false;
      }
      ok := LoadObject(InStaging, Now().todo.rest);
      if !ok {
        return;
      }
      ok := RestoreVolume(target, f.restore, Checking(source, target, f), Dropping(f));
      if !ok {
        DeleteStaged(f.stageDeleted, Done(false));
        return;
      }
      if !f.sizeFails {
        ok := CheckVolume(target, f.stageDeleted, Switching(source, target, f));
        if !ok {
          return;
        }
      }
      ok := SwitchOver(source, target, f);
    }

    method SwitchOver(source: Node, target: Node, f: MigrateCalls) returns (ok: bool)
      requires At(Switching(source, target, f))
      modifies this
      ensures At(Done(ok)) && begun == old(begun)
    {
      ghost var cleaning := Removing(source, f.remove, Finishing(f));
      MoveTo(target, Persisting(RowMoved(target), f.db, cleaning));
      ok := PersistRow(RowMoved(target), f.db, cleaning);
      if ok {
        RemoveVolume(source, f.remove, Finishing(f));
        ok := Restart(f);
      }
    }

    method Restart(f: MigrateCalls) returns (ok: bool)
      requires At(Finishing(f))
      modifies this
      ensures At(Done(ok)) && begun == old(begun)
    {
      ghost var starting := Then(Start(f.start), Done(f.start.started));
      DeleteStaged(f.stageDeleted, if f.wasRunning then starting else Done(true));
      ok := true;
      if f.wasRunning {
        StartInstance(f.start, Done(f.start.started));
        ok := f.start.started;
      }
    }

    // ----- runs -----

    /** An operation requested by somebody, with whatever requests others make meanwhile. */
    method Operate(op: Op) returns (ghost ticks: seq<Tick>)
      requires Snap().Settled()
      modifies this
      ensures Go(Begin(old(Snap()), ProgramOf(old(Snap()), op)), ticks).todo.Done?
      ensures Snap() == Apply(old(Snap()), Event.Operate(op, ticks))
      ensures StoresFresh(Begin(old(Snap()), ProgramOf(old(Snap()), op)), ticks) ==>
                (Snap().Settled() <==> Admissible(old(Snap()), Event.Operate(op, ticks)))
    {
      var ok;
      match op {
        case ArchiveOp(f) => ok := Archive(f);
        case UnarchiveOp(onto, f) => ok := Unarchive(onto, f);
        case MigrateOp(target, f) => ok := Migrate(target, f);
      }
      ticks := this.ticks;
      ApplySettled(old(Snap()), Event.Operate(op, ticks));
    }

    /** Any other event that is not a crash; the admissible ones keep the gameserver settled. */
    method Perform(e: Event)
      requires !e.Operate? && Snap().Settled()
      modifies this
      ensures Snap() == Apply(old(Snap()), e) && (Admissible(old(Snap()), e) ==> Snap().Settled())
      ensures e.ShutDown? ==> instance == if worker.Some? then None else old(instance)
      ensures e.WorkerOnline? ==> && online == old(online) + {e.node}
                                  && worker == if spec.node == Some(e.node) then Some(e.node) else old(worker)
      ensures e.WorkerOffline? ==> && online == old(online) - {e.node}
                                   && worker == if spec.node == Some(e.node) then None else old(worker)
    {
      ApplySettled(Snap(), e);
      match e {
        case StartUp(l) =>
          if !spec.archived {
            LaunchInstance(l);
          }
        case ShutDown =>
          if worker.Some? {
            instance := None;
          }
        case GameWrite(edit) =>
          if instance.Some? {
            var n := instance.value;
            volumes := volumes[n := edit(if n in volumes then volumes[n] else map[])];
            latest := edit(latest);
          }
        case FileWrite(edit) => EditFiles(edit);
        case ReadRow => ReadRow();
        case WriteRow(i, part) => WriteRow(i, part);
        case WorkerOnline(n) =>
          online := online + {n};
          if spec.node == Some(n) {
            worker := Some(n);
          }
        case WorkerOffline(n) =>
          online := online - {n};
          if spec.node == Some(n) {
            worker := None;
          }
      }
    }
  }
}
