/**
 Requests that change the configuration read the row, and later write it back as a whole. When
 that is harmless during an operation, and what happens when it is not.
 */
module StaleRows {
  import opened Common
  import opened Relocation
  import opened ArchiveSafety
  import opened MigrateSafety
  import opened RelocationRuns
  import opened RelocationOutcomes

  // ----- row and memory by phase -----

  /** The row an operation is to write. */
  function NewRow(op: Op): Record {
    match op
    case ArchiveOp(_) => ARCHIVED
    case UnarchiveOp(onto, f) => Record(UnarchiveTarget(onto, f), false)
    case MigrateOp(target, _) => On(target)
  }

  predicate InTail(a: Action) {
    || a.RowVacated? || a.RowSettled? || a.RowMoved?
    || a.Damage? || a.DropVolume? || a.DropStaged? || a.Start?
  }

  /** Nothing is left but row writes, cleaning up and restarting. */
  predicate Tail(todo: Program) {
    todo.Then? ==> InTail(todo.first) && Tail(todo.rest)
  }

  /** Nothing is left but cleaning up and restarting. */
  predicate Cleanup(todo: Program) {
    todo.Then? ==> (Removes(todo.first) || todo.first.DropStaged? || todo.first.Start?) && Cleanup(todo.rest)
  }

  /** What an archive has left after the switch. */
  predicate Vacating(todo: Program) {
    todo.Then? ==> todo.first.RowVacated? && todo.rest.Done?
  }

  /** Row and memory change once, at the steps the phases name, and the worker handle follows the memory. */
  predicate Follows(m: Machine, was: Record, goal: Record) {
    && m.world.row == (if m.phase.Named? then goal else was)
    && m.world.spec == (if Turned(m.phase) then goal else was)
    && (Turned(m.phase) ==> m.world.worker == goal.node && goal.node != was.node && Tail(m.todo))
    && (Turned(m.phase) && goal.node.None? ==> Vacating(m.todo))
    && (m.phase.Named? ==> Cleanup(m.todo))
  }

  lemma {:induction false} ArchiveTail(todo: Program, n: Node, p: Phase, db: RowWrite)
    requires ArchiveFits(todo, n, p, db)
    ensures Turned(p) ==> Tail(todo) && Vacating(todo)
    ensures p.Named? ==> todo.Done?
  {
    if todo.Then? {
      ArchiveTail(todo.rest, n, PhaseAfter(p, todo.first), db);
    }
  }

  lemma {:induction false} UnarchiveTail(todo: Program, n: Node, p: Phase, db: RowWrite)
    requires UnarchiveFits(todo, n, p, db)
    ensures Turned(p) ==> Tail(todo)
    ensures p.Named? ==> todo.Done?
  {
    if todo.Then? {
      UnarchiveTail(todo.rest, n, PhaseAfter(p, todo.first), db);
    }
  }

  lemma {:induction false} MigrateTail(todo: Program, source: Node, target: Node, p: Phase, db: RowWrite)
    requires MigrateFits(todo, source, target, p, db)
    ensures Turned(p) ==> Tail(todo)
    ensures p.Named? ==> Cleanup(todo)
  {
    if todo.Then? {
      MigrateTail(todo.rest, source, target, PhaseAfter(p, todo.first), db);
    }
  }

  lemma {:induction false} OpFollows(w: World, op: Op, ticks: seq<Tick>)
    requires w.Settled() && StoresFresh(Begin(w, ProgramOf(w, op)), ticks)
    ensures Follows(Go(Begin(w, ProgramOf(w, op)), ticks), w.row, NewRow(op))
    ensures Turned(Go(Begin(w, ProgramOf(w, op)), ticks).phase) ==> (NewRow(op).node.None? <==> op.ArchiveOp?)
  {
    var start := Begin(w, ProgramOf(w, op));
    var m := Go(start, ticks);
    if start.todo == Done(false) {
      IdleGo(w, ticks);
    } else {
      match op {
        case ArchiveOp(f) =>
          ArchiveStarts(w, f);
          ArchiveGo(start, w.worker.value, f.db, ticks);
          assert ticks[..|ticks|] == ticks;
          ArchiveTail(m.todo, w.worker.value, m.phase, f.db);
        case UnarchiveOp(onto, f) =>
          UnarchiveBegins(w, onto, f);
          UnarchiveGo(start, UnarchiveTarget(onto, f).value, f.db, ticks);
          assert ticks[..|ticks|] == ticks;
          UnarchiveTail(m.todo, UnarchiveTarget(onto, f).value, m.phase, f.db);
        case MigrateOp(target, f) =>
          MigrateBegins(w, target, f);
          MigrateGo(start, w.WorkerFor().value, target, f.db, ticks);
          MigrateTail(m.todo, w.WorkerFor().value, target, m.phase, f.db);
      }
    }
  }

  // ----- when a stored row is current -----

  /** Other requests' rows stay where they are until the request comes back. */
  lemma {:induction false} LoadedGrows(m: Machine, a: seq<Tick>, b: seq<Tick>)
    ensures Go(m, a).world.loaded <= Go(m, a + b).world.loaded
    decreases |b|
  {
    if b == [] {
      assert a + b == a;
    } else {
      var front, last := b[..|b| - 1], b[|b| - 1];
      LoadedGrows(m, a, front);
      assert a + b == (a + front) + [last];
      GoAppend(m, a + front, last);
      LoadedKept(Go(m, a + front), last);
    }
  }

  lemma LoadedKept(m: Machine, t: Tick)
    ensures m.world.loaded <= After(m, t).world.loaded
  {
  }

  /** A request that read the row after `a` and is about to write it back after `b` more. */
  function StoreOf(m: Machine, a: seq<Tick>, part: Part): Tick {
    StoreRow(|Go(m, a).world.loaded|, part)
  }

  lemma LoadedRowIs(m: Machine, a: seq<Tick>, b: seq<Tick>)
    ensures
      var i, at := |Go(m, a).world.loaded|, Go(m, a + [LoadRow] + b).world;
      i < |at.loaded| && at.loaded[i] == Go(m, a).world.row
  {
    GoAppend(m, a, LoadRow);
    LoadedGrows(m, a + [LoadRow], b);
  }

  /** Nothing that is written has changed since the row was read: the row at its write, memory at the switch. */
  predicate SameSide(read: Machine, write: Machine, part: Part) {
    && (!part.MemoryOnly? ==> (read.phase.Named? <==> write.phase.Named?))
    && (!part.RowOnly? ==> (read.phase.Named? <==> Turned(write.phase)))
  }

  /** Whatever else happens, a row is written back current exactly when the row did not change meanwhile. */
  lemma StoreIsCurrentExactly(w: World, op: Op, a: seq<Tick>, b: seq<Tick>, part: Part)
    requires w.Settled() && StoresFresh(Begin(w, ProgramOf(w, op)), a + [LoadRow] + b)
    ensures
      var start := Begin(w, ProgramOf(w, op));
      var at := Go(start, a + [LoadRow] + b);
      at.world.StoresCurrent(|Go(start, a).world.loaded|, part) <==> SameSide(Go(start, a), at, part)
  {
    var start := Begin(w, ProgramOf(w, op));
    LoadedRowIs(start, a, b);
    assert a + ([LoadRow] + b) == a + [LoadRow] + b;
    FreshFront(start, a, [LoadRow] + b);
    OpFollows(w, op, a);
    OpFollows(w, op, a + [LoadRow] + b);
  }

  lemma {:induction false} FreshFront(m: Machine, a: seq<Tick>, b: seq<Tick>)
    requires StoresFresh(m, a + b)
    ensures StoresFresh(m, a)
    decreases |b|
  {
    if b == [] {
      assert a + b == a;
    } else {
      assert (a + b)[..|a + b| - 1] == a + b[..|b| - 1];
      FreshFront(m, a, b[..|b| - 1]);
    }
  }

  // ----- the rest of an operation after a stored row -----

  function Overridden(m: Machine, row: Record, spec: Record): Machine {
    m.(world := m.world.(row := row, spec := spec))
  }

  /** What is left of a row that a request has stored: later row changes and a restart's save win. */
  function RowStep(a: Action, row: Record, spec: Record): Record {
    match a
    case RowVacated => ARCHIVED
    case RowSettled(n) => On(n)
    case RowMoved(n) => row.(node := Some(n))
    case Start(l) => if l.rowSaved then spec else row
    case _ => row
  }

  function RowEnd(todo: Program, row: Record, spec: Record): Record {
    match todo
    case Done(_) => row
    case Then(a, rest) => RowEnd(rest, RowStep(a, row, spec), spec)
  }

  lemma TailAction(w: World, stream: Contents, a: Action, row: Record, spec: Record)
    requires InTail(a) && (w.worker.None? ==> !a.Start?)
    ensures Do(w.(row := row, spec := spec), stream, a) ==
            Do(w, stream, a).(row := RowStep(a, row, spec), spec := spec)
    ensures Do(w, stream, a).worker == w.worker
  {
  }

  lemma TailTurn(m: Machine, row: Record, spec: Record)
    requires m.todo.Then? && InTail(m.todo.first) && (m.world.worker.None? ==> !m.todo.first.Start?)
    ensures Next(Overridden(m, row, spec)) == Overridden(Next(m), RowStep(m.todo.first, row, spec), spec)
    ensures Next(m).todo == m.todo.rest && Next(m).world.worker == m.world.worker
  {
    var a := m.todo.first;
    TailAction(m.world, m.stream, a, row, spec);
    assert !Blocked(m.world, a);
  }

  predicate Restarts(todo: Program) {
    todo.Then? && (todo.first.Start? || Restarts(todo.rest))
  }

  /** The operation ends as it would have, apart from row and memory. */
  lemma {:induction false} TailEnds(m: Machine, row: Record, spec: Record)
    requires Tail(m.todo) && (Restarts(m.todo) ==> m.world.worker.Some?)
    ensures Finish(Overridden(m, row, spec)) == Overridden(Finish(m), RowEnd(m.todo, row, spec), spec)
    ensures Finish(m).world.worker == m.world.worker
    decreases m.todo
  {
    if m.todo.Then? {
      TailTurn(m, row, spec);
      TailEnds(Next(m), RowStep(m.todo.first, row, spec), spec);
    }
  }

  /** A restart that is still to come saves the row. */
  predicate SavesRow(todo: Program) {
    todo.Then? && ((todo.first.Start? && todo.first.launch.rowSaved) || SavesRow(todo.rest))
  }

  lemma {:induction false} CleanupRowEnd(todo: Program, row: Record, spec: Record)
    requires Cleanup(todo)
    ensures RowEnd(todo, row, spec) == if SavesRow(todo) then spec else row
    decreases todo
  {
    if todo.Then? {
      CleanupRowEnd(todo.rest, RowStep(todo.first, row, spec), spec);
      CleanupRowEnd(todo.rest, row, spec);
    }
  }

  lemma {:induction false} NamedStays(m: Machine, b: seq<Tick>)
    requires m.phase.Named? && Tail(m.todo)
    ensures (Go(m, b).phase, Tail(Go(m, b).todo)) == (Named, true)
    decreases |b|
  {
    if b != [] {
      NamedStays(m, b[..|b| - 1]);
    }
  }

  // ----- one row written back -----

  /** The volume an archive was to remove is still complete. */
  predicate HomeWhole(was: Record, w: World) {
    was.node.Some? && was.node.value in w.volumes && w.volumes[was.node.value] == w.latest
  }

  /** The machine after a write of a row that has changed since. */
  function Stale(m: Machine, was: Record, part: Part): Machine {
    Overridden(m, if part.MemoryOnly? then m.world.row else was, if part.RowOnly? then m.world.spec else was)
  }

  /** A stored row that is not current, in an operation that would have ended settled. */
  lemma {:induction false} StaleEnd(m: Machine, was: Record, goal: Record, part: Part)
    requires Follows(m, was, goal) && Turned(m.phase) && (part.RowOnly? ==> m.phase.Named?)
    requires Finish(m).world.Settled() && Finish(m).world.row == goal && Finish(m).phase.Named?
    requires was.archived <==> was.node.None?
    ensures
      var end := Finish(Stale(m, was, part));
      end.world.Settled() <==>
      || (part.RowOnly? && SavesRow(m.todo))
      || (part.RowAndMemory? && goal.node.None? && m.phase.Named? && HomeWhole(was, m.world))
  {
    var row, spec := if part.MemoryOnly? then m.world.row else was, if part.RowOnly? then goal else was;
    assert Restarts(m.todo) ==> goal.node.Some?;
    TailEnds(m, row, spec);
    if m.phase.Named? {
      CleanupRowEnd(m.todo, row, spec);
    } else if goal.node.None? {
      assert m.todo.Done? ==> Finish(m) == m;
      assert RowEnd(m.todo, row, spec) == RowEnd(m.todo.rest, ARCHIVED, spec) == ARCHIVED;
    }
  }

  /**
   One request that reads the row and later writes it back, during an operation that is then left
   alone and would have ended with its row written and nothing missed. The gameserver is settled at
   the end exactly when what is written did not change in between, or a restart saves the row after
   a write that leaves memory alone, or an archive failed to remove anything of the volume that row
   and memory are both set back to.
   */
  lemma OneStore(w: World, op: Op, a: seq<Tick>, b: seq<Tick>, part: Part, k: nat)
    requires w.Settled() && StoresFresh(Begin(w, ProgramOf(w, op)), a + [LoadRow] + b)
    requires
      var before := Go(Begin(w, ProgramOf(w, op)), a + [LoadRow] + b);
      Size(before.todo) <= k && Finish(before).phase.Named? && Harmless(Finish(before))
    ensures
      var start := Begin(w, ProgramOf(w, op));
      var read, before := Go(start, a), Go(start, a + [LoadRow] + b);
      var end := Go(start, a + [LoadRow] + b + [StoreOf(start, a, part)] + Turns(k));
      end.todo.Done? &&
      (end.world.Settled() <==>
         || SameSide(read, before, part)
         || (part.RowOnly? && SavesRow(before.todo))
         || (part.RowAndMemory? && op.ArchiveOp? && before.phase.Named? && HomeWhole(w.row, before.world)))
  {
    var start, ticks := Begin(w, ProgramOf(w, op)), a + [LoadRow] + b;
    var read, before := Go(start, a), Go(start, ticks);
    EndsWell(w, op, ticks, k);
    StoreLeaves(w, op, a, b, part);
    FinishAfter(start, ticks, StoreOf(start, a, part), k);
    OpFollows(w, op, ticks);
    if !SameSide(read, before, part) {
      StaleEnd(before, w.row, NewRow(op), part);
    }
  }

  lemma {:induction false} FinishAfter(start: Machine, ticks: seq<Tick>, t: Tick, k: nat)
    requires Size(Go(start, ticks).todo) <= k && t.StoreRow?
    ensures Go(start, ticks + [t] + Turns(k)) == Finish(After(Go(start, ticks), t))
    ensures Go(start, ticks + [t] + Turns(k)).todo.Done?
  {
    GoAppend(start, ticks, t);
    GoConcat(start, ticks + [t], Turns(k));
    TurnsFinish(After(Go(start, ticks), t), k);
    FinishIsDone(After(Go(start, ticks), t));
  }

  /** What the write does: nothing, or it sets the row back, and memory with it. */
  lemma {:induction false} StoreLeaves(w: World, op: Op, a: seq<Tick>, b: seq<Tick>, part: Part)
    requires w.Settled() && StoresFresh(Begin(w, ProgramOf(w, op)), a + [LoadRow] + b)
    ensures
      var start := Begin(w, ProgramOf(w, op));
      var read, before := Go(start, a), Go(start, a + [LoadRow] + b);
      && After(before, StoreOf(start, a, part)) ==
         (if SameSide(read, before, part) then before
          else Stale(before, w.row, part))
      && (!SameSide(read, before, part) ==> Turned(before.phase) && (part.RowOnly? ==> before.phase.Named?))
  {
    var start, ticks := Begin(w, ProgramOf(w, op)), a + [LoadRow] + b;
    StoreIsCurrentExactly(w, op, a, b, part);
    LoadedRowIs(start, a, b);
    OpFollows(w, op, ticks);
    ReadSide(w, op, a, b);
  }

  /** What the operation ends with when the request does not write. */
  lemma EndsWell(w: World, op: Op, ticks: seq<Tick>, k: nat)
    requires w.Settled() && StoresFresh(Begin(w, ProgramOf(w, op)), ticks)
    requires
      var m := Go(Begin(w, ProgramOf(w, op)), ticks);
      Size(m.todo) <= k && Finish(m).phase.Named? && Harmless(Finish(m))
    ensures
      var end := Finish(Go(Begin(w, ProgramOf(w, op)), ticks));
      (end.todo.Done?, end.world.Settled(), end.world.row) == (true, true, NewRow(op))
  {
    var start := Begin(w, ProgramOf(w, op));
    TurnsFinish(Go(start, ticks), k);
    GoConcat(start, ticks, Turns(k));
    FreshTurns(start, ticks, k);
    FinishIsDone(Go(start, ticks));
    OpSafe(w, op, ticks + Turns(k));
    OpFollows(w, op, ticks + Turns(k));
  }

  /** The row read is the old one unless the row was written before. */
  lemma ReadSide(w: World, op: Op, a: seq<Tick>, b: seq<Tick>)
    requires w.Settled() && StoresFresh(Begin(w, ProgramOf(w, op)), a + [LoadRow] + b)
    ensures
      var read := Go(Begin(w, ProgramOf(w, op)), a);
      if read.phase.Named? then Go(Begin(w, ProgramOf(w, op)), a + [LoadRow] + b).phase.Named?
      else read.world.row == w.row
  {
    var start := Begin(w, ProgramOf(w, op));
    assert a + ([LoadRow] + b) == a + [LoadRow] + b;
    FreshFront(start, a, [LoadRow] + b);
    OpFollows(w, op, a);
    GoConcat(start, a, [LoadRow] + b);
    if Go(start, a).phase.Named? {
      NamedStays(Go(start, a), [LoadRow] + b);
    }
  }
}
