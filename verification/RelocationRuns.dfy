/** Runs of operations, writes, requests and changes of the cluster. */
module RelocationRuns {
  import opened Common
  import opened Relocation
  import opened ArchiveSafety
  import opened MigrateSafety

  // ----- one edit during an operation -----

  lemma {:induction false} OpSafe(w: World, op: Op, ticks: seq<Tick>)
    requires w.Settled() && StoresFresh(Begin(w, ProgramOf(w, op)), ticks)
    ensures
      var m := Go(Begin(w, ProgramOf(w, op)), ticks);
      && (m.phase == Named ==> (Restarted(m.world).Settled() <==> Harmless(m)))
      && (!m.phase.Named? && !(op.ArchiveOp? && (m.phase.Clearing? || m.phase.Switched?)) ==>
            Restarted(m.world).Settled())
      && (m.todo.Done? ==> (m.world.Settled() <==> Sound(m)) && (m.phase == Switched ==> !DbOf(op).RowWritten?))
  {
    match op {
      case ArchiveOp(f) => ArchiveSafe(w, f, ticks);
      case UnarchiveOp(onto, f) => UnarchiveSafe(w, onto, f, ticks);
      case MigrateOp(target, f) => MigrateSafe(w, target, f, ticks);
    }
  }

  lemma {:induction false} TurnsMissNothing(m: Machine, ticks: seq<Tick>, n: nat)
    ensures Go(m, ticks + Turns(n)).missed == Go(m, ticks).missed
    decreases n
  {
    if n == 0 {
      assert ticks + Turns(0) == ticks;
    } else {
      TurnsMissNothing(m, ticks, n - 1);
      assert ticks + Turns(n) == (ticks + Turns(n - 1)) + [Turn];
      GoAppend(m, ticks + Turns(n - 1), Turn);
    }
  }

  /**
   One file edit after `i` turns of an operation that changes the row: the row names the latest
   contents afterwards exactly when the edit fell before the volume was read or after the row
   was written, or what came later makes no difference of it.
   */
  lemma OneEdit(w: World, op: Op, i: nat, e: Edit, j: nat)
    requires w.Settled()
    requires Go(Begin(w, ProgramOf(w, op)), Turns(i)).world.WorkerFor().Some?
    requires Go(Begin(w, ProgramOf(w, op)), Turns(i) + [FileEdit(e)] + Turns(j)).phase == Named
    ensures
      var at := Go(Begin(w, ProgramOf(w, op)), Turns(i));
      var m := Go(Begin(w, ProgramOf(w, op)), Turns(i) + [FileEdit(e)] + Turns(j));
      Restarted(m.world).Settled() <==>
      (!InWindow(at.phase) || EditAll(e(m.copy), m.later) == EditAll(m.copy, m.later))
  {
    var start := Begin(w, ProgramOf(w, op));
    var m := Go(start, Turns(i) + [FileEdit(e)] + Turns(j));
    EditIsFresh(start, i, e, j);
    OpSafe(w, op, Turns(i) + [FileEdit(e)] + Turns(j));
    OneEditMissed(start, i, e, j);
    EditAllAppend(m.copy, [], e);
    assert [] + [e] == [e] && EditAll(m.copy, []) == m.copy;
  }

  lemma OneEditMissed(m: Machine, i: nat, e: Edit, j: nat)
    requires m.missed == [] && Go(m, Turns(i)).world.WorkerFor().Some?
    ensures Go(m, Turns(i) + [FileEdit(e)] + Turns(j)).missed ==
            if InWindow(Go(m, Turns(i)).phase) then [e] else []
  {
    TurnsMissNothing(m, [], i);
    assert [] + Turns(i) == Turns(i) && Go(m, []) == m;
    GoAppend(m, Turns(i), FileEdit(e));
    TurnsMissNothing(m, Turns(i) + [FileEdit(e)], j);
  }

  // ----- runs -----

  /** One event of a run: an operation, a write to the volume, a request on the row, or a change of the cluster. */
  datatype Event =
    | Operate(op: Op, ticks: seq<Tick>)
    | StartUp(launch: Launch)
    | ShutDown
    | GameWrite(edit: Edit)
    | FileWrite(edit: Edit)
    | ReadRow
    | WriteRow(index: nat, part: Part)
    | WorkerOnline(node: Node)
    | WorkerOffline(node: Node)

  /** An operation whose schedule ends before its program does is cut off by a controller crash. */
  function Apply(w: World, e: Event): World {
    match e
    case Operate(op, ticks) =>
      var m := Go(Begin(w, ProgramOf(w, op)), ticks);
      if m.todo.Done? then m.world else Restarted(m.world)
    case StartUp(l) => if w.spec.archived then w else AfterLaunch(w, l)
    case ShutDown => w.Stopped()
    case GameWrite(edit) => w.Edited(w.instance, edit)
    case FileWrite(edit) => w.Edited(w.WorkerFor(), edit)
    case ReadRow => w.RowLoaded()
    case WriteRow(i, part) => w.RowStored(i, part)
    case WorkerOnline(n) =>
      w.(online := w.online + {n}, worker := if w.spec.node == Some(n) then Some(n) else w.worker)
    case WorkerOffline(n) =>
      w.(online := w.online - {n}, worker := if w.spec.node == Some(n) then None else w.worker)
  }

  /**
   What a run must not do: return from an operation whose row write failed after the switch,
   lose an edit of the window to a row change, write back a row that has changed since it was
   read, or lose the controller between an archive's removal of the volume and its row write.
   */
  predicate Admissible(w: World, e: Event) {
    && (e.WriteRow? ==> w.StoresCurrent(e.index, e.part))
    && (e.Operate? ==>
      var m := Go(Begin(w, ProgramOf(w, e.op)), e.ticks);
      && StoresFresh(Begin(w, ProgramOf(w, e.op)), e.ticks)
      && (m.phase == Named ==> Harmless(m))
      && (m.phase.Switched? ==> !m.todo.Done?)
      && (e.op.ArchiveOp? && !m.todo.Done? ==> !m.phase.Clearing? && !m.phase.Switched?))
  }

  /** An event keeps the gameserver settled; for an operation that runs to its end, only an admissible one does. */
  lemma ApplySettled(w: World, e: Event)
    requires w.Settled()
    ensures Admissible(w, e) ==> Apply(w, e).Settled()
    ensures e.Operate? && Go(Begin(w, ProgramOf(w, e.op)), e.ticks).todo.Done? &&
            StoresFresh(Begin(w, ProgramOf(w, e.op)), e.ticks) ==>
              (Apply(w, e).Settled() <==> Admissible(w, e))
  {
    if e.Operate? && StoresFresh(Begin(w, ProgramOf(w, e.op)), e.ticks) {
      OpSafe(w, e.op, e.ticks);
    }
  }

  function Run(w: World, events: seq<Event>): World
    decreases |events|
  {
    if events == [] then w else Run(Apply(w, events[0]), events[1..])
  }

  predicate AdmissibleRun(w: World, events: seq<Event>)
    decreases |events|
  {
    events == [] || (Admissible(w, events[0]) && AdmissibleRun(Apply(w, events[0]), events[1..]))
  }

  /** Over every admissible run the row names the place that holds the latest contents. */
  lemma {:induction false} RunSettled(w: World, events: seq<Event>)
    requires w.Settled() && AdmissibleRun(w, events)
    ensures forall k :: 0 <= k <= |events| ==>
              var now := Run(w, events[..k]);
              now.Settled() && now.Located() == Some(now.latest)
    decreases |events|
  {
    if events != [] {
      ApplySettled(w, events[0]);
      RunSettled(Apply(w, events[0]), events[1..]);
      forall k | 0 < k <= |events| ensures Run(w, events[..k]) == Run(Apply(w, events[0]), events[1..][..k - 1]) {
        assert events[..k][1..] == events[1..][..k - 1];
      }
    }
  }
}
