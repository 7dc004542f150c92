/**
 Moving a gameserver's volume between worker nodes and archive storage.

 The durable facts are the volumes on the nodes, the archive object, the staged
 migration object and the database row; the controller also keeps an in-memory
 copy of the row (`spec`), the worker handle it routes calls to, and the running
 instance. An operation is a program of atomic actions that other requests may fall
 between: file edits, and changes of the configuration, which read the row and later
 write it back as a whole (`loaded` holds the rows they have read). Every fallible
 call takes its outcome as a parameter, so a property proved for all parameters and
 all schedules holds for every pattern of failures, for requests at any moment, and
 for a crash anywhere.
 */
module Relocation {
  import opened Common

  type Node = string

  /** The files of one volume. */
  type Contents = map<string, seq<byte>>

  /** What a file request or a running game does to a volume. */
  type Edit = Contents -> Contents

  /** The contents after edits made one after the other. */
  function EditAll(c: Contents, es: seq<Edit>): Contents
    decreases |es|
  {
    if es == [] then c else es[|es| - 1](EditAll(c, es[..|es| - 1]))
  }

  lemma EditAllAppend(c: Contents, es: seq<Edit>, e: Edit)
    ensures EditAll(c, es + [e]) == e(EditAll(c, es))
  {
    assert (es + [e])[..|es|] == es;
  }

  /** The part of a gameserver row that says where its data is. */
  datatype Record = Record(node: Option<Node>, archived: bool)

  const ARCHIVED := Record(None, true)

  function On(n: Node): Record {
    Record(Some(n), false)
  }

  /** What a request sets to the row it has read. */
  datatype Part = RowOnly | MemoryOnly | RowAndMemory

  datatype World = World(
    spec: Record, row: Record, worker: Option<Node>, instance: Option<Node>,
    volumes: map<Node, Contents>, archive: Option<Contents>, staged: Option<Contents>,
    online: set<Node>, latest: Contents, loaded: seq<Record>)
  {
    /** The data found at the place the database row names. */
    function Located(): Option<Contents> {
      if row.archived then archive
      else if row.node.Some? && row.node.value in volumes then Some(volumes[row.node.value])
      else None
    }

    predicate RowNamesData() {
      Located() == Some(latest)
    }

    /** Some volume or stored object holds the complete latest contents. */
    ghost predicate CopyExists() {
      || archive == Some(latest)
      || staged == Some(latest)
      || exists n :: n in volumes && volumes[n] == latest
    }

    /** What holds whenever no operation is in progress. */
    predicate Settled() {
      && spec == row
      && RowNamesData()
      && (row.archived <==> row.node.None?)
      && (worker.Some? ==> worker == spec.node)
      && (instance.Some? ==> instance == spec.node && (instance.value in online ==> worker.Some?))
    }

    /** The worker the dispatcher finds through the database row. */
    function WorkerFor(): Option<Node> {
      if row.node.Some? && row.node.value in online then row.node else None
    }

    /** `stopIfRunning`: without a worker handle nothing is stopped. */
    function Stopped(): World {
      if worker.Some? then this.(instance := None) else this
    }

    /** Writing a file into a missing volume creates its directory. */
    function VolumeAt(n: Node): Contents {
      if n in volumes then volumes[n] else map[]
    }

    /** An edit through the worker on `n`; without a worker it is refused. */
    function Edited(n: Option<Node>, e: Edit): World {
      if n.None? then this
      else this.(volumes := volumes[n.value := e(VolumeAt(n.value))], latest := e(latest))
    }

    /** A request reads the row. */
    function RowLoaded(): World {
      this.(loaded := loaded + [row])
    }

    /** It writes back the row it read, or makes it the in-memory copy, or both. */
    function RowStored(i: nat, part: Part): World {
      if i >= |loaded| then this
      else this.(row := if part.MemoryOnly? then row else loaded[i], spec := if part.RowOnly? then spec else loaded[i])
    }

    /** What it writes is what is there. */
    predicate StoresCurrent(i: nat, part: Part) {
      i < |loaded| ==> (part.MemoryOnly? || loaded[i] == row) && (part.RowOnly? || loaded[i] == spec)
    }
  }

  /** The controller comes back: the row is reloaded, requests are gone and no worker has reconnected yet. */
  function Restarted(w: World): World {
    w.(spec := w.row, worker := None, online := {}, loaded := [])
  }

  // ----- outcomes of calls -----

  /** Streaming a volume into storage; `partial` is what a cut in mid-write leaves. */
  datatype Save =
    | Saved(partial: Option<Contents>)
    | SaveFailed(partial: Option<Contents>, left: Option<Contents>)
    | CompressFailed(partial: Option<Contents>, garbage: Contents, deleted: bool)

  /** Clearing a volume and unpacking a tar into it. */
  datatype Restore = Restored(partial: Contents) | RestoreFailed(partial: Contents, left: Contents)

  datatype Remove = Removed(partial: Contents) | RemoveFailed(partial: Contents)

  /** Loading and rewriting the database row. */
  datatype RowWrite = RowWritten | RowLoadFailed | RowUpdateFailed

  /** `executeStart`: what it does to the volume, whether an instance runs, whether the row was saved. */
  datatype Launch = Launch(edit: Edit, started: bool, rowSaved: bool)

  datatype ArchiveCalls = ArchiveCalls(backupFails: bool, save: Save, remove: Remove, db: RowWrite)

  datatype UnarchiveCalls = UnarchiveCalls(
    ranked: seq<Node>, createFails: bool, loadFails: bool, restore: Restore, db: RowWrite)

  datatype MigrateCalls = MigrateCalls(
    rejected: bool, backupFails: bool, save: Save, createFails: bool, loadFails: bool,
    restore: Restore, sizeFails: bool, db: RowWrite, remove: Remove, stageDeleted: bool,
    wasRunning: bool, start: Launch)

  predicate HasBytes(c: Contents) {
    exists p :: p in c && c[p] != []
  }

  // ----- actions -----

  datatype Place = InArchive | InStaging

  datatype Action =
    | Stop
    | Backup(node: Node)
    | Put(place: Place, data: Option<Contents>)
    | Save(place: Place)
    | CreateVolume(node: Node)
    | Load(place: Place)
    | PutVolume(node: Node, contents: Contents)
    | RestoreVolume(node: Node)
    | CheckSize(node: Node, stageDeleted: bool)
    | Damage(node: Node, contents: Contents)
    | DropVolume(node: Node)
    | Vacate | Settle(node: Node) | Move(node: Node)
    | RowVacated | RowSettled(node: Node) | RowMoved(node: Node)
    | DropStaged(deleted: bool)
    | Start(launch: Launch)

  /** What is still to be done, and the result it ends with. */
  datatype Program = Done(ok: bool) | Then(first: Action, rest: Program)

  function Object(w: World, place: Place): Option<Contents> {
    if place.InArchive? then w.archive else w.staged
  }

  function WithObject(w: World, place: Place, data: Option<Contents>): World {
    if place.InArchive? then w.(archive := data) else w.(staged := data)
  }

  /** CreateVolume keeps a volume that is already there. */
  function WithVolume(volumes: map<Node, Contents>, n: Node): map<Node, Contents> {
    if n in volumes then volumes else volumes[n := map[]]
  }

  /** A volume that a removal has only partly taken away. */
  function Damaged(volumes: map<Node, Contents>, n: Node, left: Contents): map<Node, Contents> {
    if n in volumes then volumes[n := left] else volumes
  }

  function AfterLaunch(w: World, l: Launch): World {
    if w.worker.None? then w else
    w.Edited(w.worker, l.edit).(instance := if l.started then w.worker else w.instance,
                                row := if l.rowSaved then w.spec else w.row)
  }

  /** The effect of an action; `stream` is what the last backup or load reads from. */
  function Do(w: World, stream: Contents, a: Action): World {
    match a
    case Stop => w.Stopped()
    case Backup(_) => w
    case Put(place, data) => WithObject(w, place, data)
    case Save(place) => WithObject(w, place, Some(stream))
    case CreateVolume(n) => w.(volumes := WithVolume(w.volumes, n))
    case Load(_) => w
    case PutVolume(n, c) => w.(volumes := w.volumes[n := c])
    case RestoreVolume(n) => w.(volumes := w.volumes[n := stream])
    case CheckSize(_, _) => w
    case Damage(n, c) => w.(volumes := Damaged(w.volumes, n, c))
    case DropVolume(n) => w.(volumes := w.volumes - {n})
    case Vacate => w.(spec := ARCHIVED, worker := None, instance := None)
    case Settle(n) => w.(spec := On(n), worker := Some(n))
    case Move(n) => w.(spec := w.spec.(node := Some(n)), worker := Some(n))
    case RowVacated => w.(row := ARCHIVED)
    case RowSettled(n) => w.(row := On(n))
    case RowMoved(n) => w.(row := w.row.(node := Some(n)))
    case DropStaged(deleted) => w.(staged := if deleted then None else w.staged)
    case Start(l) => AfterLaunch(w, l)
  }

  /** An action that finds nothing to read, or an empty volume, ends the program. */
  predicate Blocked(w: World, a: Action) {
    match a
    case Backup(n) => n !in w.volumes
    case Load(place) => Object(w, place).None?
    case CheckSize(n, _) => !HasBytes(w.VolumeAt(n))
    case _ => false
  }

  function Abandoned(w: World, a: Action): World {
    if a.CheckSize? && a.stageDeleted then w.(staged := None) else w
  }

  // ----- programs -----

  function Saving(place: Place, s: Save, rest: Program): Program {
    match s
    case Saved(partial) => Then(Put(place, partial), Then(Save(place), rest))
    case SaveFailed(partial, left) => Then(Put(place, partial), Then(Put(place, left), Done(false)))
    case CompressFailed(partial, garbage, deleted) =>
      Then(Put(place, partial), Then(Put(place, Some(garbage)),
        if deleted then Then(Put(place, None), Done(false)) else Done(false)))
  }

  function Restoring(n: Node, r: Restore, rest: Program, failed: Program): Program {
    match r
    case Restored(partial) => Then(PutVolume(n, partial), Then(RestoreVolume(n), rest))
    case RestoreFailed(partial, left) => Then(PutVolume(n, partial), Then(PutVolume(n, left), failed))
  }

  function Removing(n: Node, r: Remove, rest: Program): Program {
    Then(Damage(n, r.partial), if r.Removed? then Then(DropVolume(n), rest) else rest)
  }

  /** The row update; a failure is returned with the in-memory change already made. */
  function Persisting(row: Action, db: RowWrite, rest: Program): Program {
    if db.RowWritten? then Then(row, rest) else Done(false)
  }

  function ArchiveProgram(w: World, f: ArchiveCalls): Program {
    if w.spec.archived || w.worker.None? then Done(false)
    else Then(Stop, if f.backupFails then Done(false) else Then(Backup(w.worker.value), Archiving(w.worker.value, f)))
  }

  function Archiving(n: Node, f: ArchiveCalls): Program {
    Saving(InArchive, f.save, Removing(n, f.remove, Then(Vacate, Persisting(RowVacated, f.db, Done(true)))))
  }

  function UnarchiveTarget(onto: Option<Node>, f: UnarchiveCalls): Option<Node> {
    if onto.Some? then onto else if f.ranked == [] then None else Some(f.ranked[0])
  }

  predicate UnarchiveStarts(w: World, onto: Option<Node>, f: UnarchiveCalls) {
    var t := UnarchiveTarget(onto, f);
    w.spec.archived && t.Some? && t.value in w.online && !f.createFails
  }

  function UnarchiveProgram(w: World, onto: Option<Node>, f: UnarchiveCalls): Program {
    if !UnarchiveStarts(w, onto, f) then Done(false) else
    var n := UnarchiveTarget(onto, f).value;
    Then(CreateVolume(n), if f.loadFails then Done(false) else Then(Load(InArchive), Unpacking(n, f)))
  }

  function Unpacking(n: Node, f: UnarchiveCalls): Program {
    Restoring(n, f.restore, Then(Settle(n), Persisting(RowSettled(n), f.db, Done(true))), Done(false))
  }

  predicate MigrateStarts(w: World, target: Node, f: MigrateCalls) {
    && w.spec.node.Some? && w.spec.node != Some(target) && !f.rejected
    && target in w.online && w.WorkerFor().Some?
  }

  function MigrateProgram(w: World, target: Node, f: MigrateCalls): Program {
    if !MigrateStarts(w, target, f) then Done(false) else
    var source := w.WorkerFor().value;
    Then(Stop, if f.backupFails then Done(false) else Then(Backup(source), Staging(source, target, f)))
  }

  function Staging(source: Node, target: Node, f: MigrateCalls): Program {
    Saving(InStaging, f.save, Copying(source, target, f))
  }

  /** The staged object is deleted on every early exit; a failed deletion is only reported. */
  function Dropping(f: MigrateCalls): Program {
    Then(DropStaged(f.stageDeleted), Done(false))
  }

  function Copying(source: Node, target: Node, f: MigrateCalls): Program {
    if f.createFails then Dropping(f) else
    Then(CreateVolume(target),
      if f.loadFails then Dropping(f) else
      Then(Load(InStaging), Restoring(target, f.restore, Checking(source, target, f), Dropping(f))))
  }

  function Checking(source: Node, target: Node, f: MigrateCalls): Program {
    if f.sizeFails then Switching(source, target, f)
    else Then(CheckSize(target, f.stageDeleted), Switching(source, target, f))
  }

  function Switching(source: Node, target: Node, f: MigrateCalls): Program {
    Then(Move(target), Persisting(RowMoved(target), f.db, Removing(source, f.remove, Finishing(f))))
  }

  function Finishing(f: MigrateCalls): Program {
    Then(DropStaged(f.stageDeleted), if f.wasRunning then Then(Start(f.start), Done(f.start.started)) else Done(true))
  }

  // ----- operations under interference -----

  /** How far an operation has come. */
  datatype Phase = Begun | Idle | Copied | Kept | Loaded | Replaced | Clearing | Switched | Named

  /** The volume has not been read. */
  predicate Early(p: Phase) {
    p.Begun? || p.Idle?
  }

  /** The volume has been read and the row not yet changed. */
  predicate InWindow(p: Phase) {
    !Early(p) && !p.Named?
  }

  /** Memory already points to the new place. */
  predicate Turned(p: Phase) {
    p.Switched? || p.Named?
  }

  function PhaseAfter(p: Phase, a: Action): Phase {
    match a
    case Stop => Idle
    case Backup(_) => Copied
    case Save(_) => Kept
    case Load(_) => Loaded
    case RestoreVolume(_) => Replaced
    case Damage(_, _) => if p == Named then Named else Clearing
    case Vacate => Switched
    case Settle(_) => Switched
    case Move(_) => Switched
    case RowVacated => Named
    case RowSettled(_) => Named
    case RowMoved(_) => Named
    case _ => p
  }

  /**
   An operation in progress. The history says what the backup read (`copy`), which edits
   fell into the window (`missed`) and which came after the row change (`later`).
   */
  datatype Machine = Machine(
    world: World, stream: Contents, todo: Program, phase: Phase, copy: Contents, missed: seq<Edit>, later: seq<Edit>)

  function Begin(w: World, p: Program): Machine {
    Machine(w, map[], p, Begun, map[], [], [])
  }

  function StreamAfter(m: Machine, a: Action): Contents {
    match a
    case Backup(n) => m.world.VolumeAt(n)
    case Load(place) => if Object(m.world, place).Some? then Object(m.world, place).value else m.stream
    case _ => m.stream
  }

  function Next(m: Machine): Machine {
    match m.todo
    case Done(_) => m
    case Then(a, rest) =>
      if Blocked(m.world, a) then m.(world := Abandoned(m.world, a), todo := Done(false))
      else m.(world := Do(m.world, m.stream, a), stream := StreamAfter(m, a), todo := rest,
              phase := PhaseAfter(m.phase, a), copy := if a.Backup? then m.world.VolumeAt(a.node) else m.copy,
              later := if a.Start? && m.world.worker.Some? then m.later + [a.launch.edit] else m.later)
  }

  /** A file request finds its worker through the row and takes no notice of the operation. */
  function Request(m: Machine, e: Edit): Machine {
    var n := m.world.WorkerFor();
    if n.None? then m
    else m.(world := m.world.Edited(n, e),
            missed := if InWindow(m.phase) then m.missed + [e] else m.missed,
            later := if m.phase == Named then m.later + [e] else m.later)
  }

  datatype Tick = Turn | FileEdit(edit: Edit) | LoadRow | StoreRow(index: nat, part: Part)

  function After(m: Machine, t: Tick): Machine {
    match t
    case Turn => Next(m)
    case FileEdit(e) => Request(m, e)
    case LoadRow => m.(world := m.world.RowLoaded())
    case StoreRow(i, part) => m.(world := m.world.RowStored(i, part))
  }

  /** The operation under a schedule of its own turns and other requests. */
  function Go(m: Machine, ticks: seq<Tick>): Machine
    decreases |ticks|
  {
    if ticks == [] then m else After(Go(m, ticks[..|ticks| - 1]), ticks[|ticks| - 1])
  }

  lemma GoAppend(m: Machine, ticks: seq<Tick>, t: Tick)
    ensures Go(m, ticks + [t]) == After(Go(m, ticks), t)
  {
    assert (ticks + [t])[..|ticks|] == ticks;
  }

  /** No request of the schedule writes back a row that has changed since it was read. */
  predicate StoresFresh(m: Machine, ticks: seq<Tick>)
    decreases |ticks|
  {
    ticks == [] ||
    var front, last := ticks[..|ticks| - 1], ticks[|ticks| - 1];
    StoresFresh(m, front) && (last.StoreRow? ==> Go(m, front).world.StoresCurrent(last.index, last.part))
  }

  /** A row written back that is current changes nothing. */
  lemma CurrentStoreIsIdle(m: Machine, i: nat, part: Part)
    requires m.world.StoresCurrent(i, part)
    ensures After(m, StoreRow(i, part)) == m
  {
  }

  /** The edits of the window change nothing that the later ones do not repair. */
  predicate Harmless(m: Machine) {
    EditAll(EditAll(m.copy, m.missed), m.later) == EditAll(m.copy, m.later)
  }

  predicate OnStorage(a: Action) {
    a.Stop? || a.Backup? || a.Put? || a.Save? || a.Load? || a.DropStaged?
  }

  predicate Removes(a: Action) {
    a.Damage? || a.DropVolume?
  }

  /** The row write did not fail after the switch, and if the row changed no edit was lost. */
  predicate Sound(m: Machine) {
    m.phase != Switched && (m.phase == Named ==> Harmless(m))
  }

  /** Requests while an operation that was refused does nothing. */
  lemma {:induction false} IdleGo(w: World, ticks: seq<Tick>)
    requires w.Settled() && StoresFresh(Begin(w, Done(false)), ticks)
    ensures
      var m := Go(Begin(w, Done(false)), ticks);
      && m.world.Settled() && m.world.row == w.row
      && m.todo == Done(false) && m.phase == Begun && m.missed == [] && m.later == []
    decreases |ticks|
  {
    if ticks != [] {
      var front, last := ticks[..|ticks| - 1], ticks[|ticks| - 1];
      IdleGo(w, front);
      match last {
        case Turn =>
        case FileEdit(e) => IdleEdit(Go(Begin(w, Done(false)), front), e);
        case LoadRow =>
        case StoreRow(i, part) => CurrentStoreIsIdle(Go(Begin(w, Done(false)), front), i, part);
      }
    }
  }

  lemma IdleEdit(m: Machine, e: Edit)
    requires m.world.Settled() && m.phase == Begun && m.missed == [] && m.later == []
    ensures Request(m, e).world.Settled() && Request(m, e).world.row == m.world.row
    ensures Request(m, e).missed == [] && Request(m, e).later == []
  {
  }

  // ----- the three operations -----

  datatype Op =
    | ArchiveOp(archiveCalls: ArchiveCalls)
    | UnarchiveOp(onto: Option<Node>, unarchiveCalls: UnarchiveCalls)
    | MigrateOp(target: Node, migrateCalls: MigrateCalls)

  function ProgramOf(w: World, op: Op): Program {
    match op
    case ArchiveOp(f) => ArchiveProgram(w, f)
    case UnarchiveOp(onto, f) => UnarchiveProgram(w, onto, f)
    case MigrateOp(target, f) => MigrateProgram(w, target, f)
  }

  function Turns(n: nat): seq<Tick> {
    seq(n, _ => Turn)
  }

  function DbOf(op: Op): RowWrite {
    match op
    case ArchiveOp(f) => f.db
    case UnarchiveOp(_, f) => f.db
    case MigrateOp(_, f) => f.db
  }

  /** Turns of its own after a schedule. */
  lemma {:induction false} FreshTurns(m: Machine, ticks: seq<Tick>, n: nat)
    requires StoresFresh(m, ticks)
    ensures StoresFresh(m, ticks + Turns(n))
    decreases n
  {
    if n == 0 {
      assert ticks + Turns(0) == ticks;
    } else {
      FreshTurns(m, ticks, n - 1);
      assert ticks + Turns(n) == (ticks + Turns(n - 1)) + [Turn];
      assert (ticks + Turns(n))[..|ticks + Turns(n)| - 1] == ticks + Turns(n - 1);
    }
  }

  lemma TurnsAreFresh(m: Machine, n: nat)
    ensures StoresFresh(m, Turns(n))
  {
    FreshTurns(m, [], n);
    assert [] + Turns(n) == Turns(n);
  }

  lemma EditIsFresh(m: Machine, i: nat, e: Edit, j: nat)
    ensures StoresFresh(m, Turns(i) + [FileEdit(e)] + Turns(j))
  {
    TurnsAreFresh(m, i);
    var ticks := Turns(i) + [FileEdit(e)];
    assert ticks[..|ticks| - 1] == Turns(i);
    FreshTurns(m, ticks, j);
  }
}
