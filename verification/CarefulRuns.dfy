/**
 Runs that keep a gameserver's data, by what calls do and when requests come: row writes succeed,
 file edits stay out of the window between copy and row write, rows are written back current, and
 the controller is not lost while an archive removes the volume. Every other call is free to fail.
 */
module CarefulRuns {
  import opened Common
  import opened Relocation
  import opened RelocationRuns

  /** No file edit of the schedule falls between the reading of the volume and the row write. */
  predicate EditsCalm(m: Machine, ticks: seq<Tick>)
    decreases |ticks|
  {
    ticks == [] ||
    var front, last := ticks[..|ticks| - 1], ticks[|ticks| - 1];
    EditsCalm(m, front) && (last.FileEdit? ==> !InWindow(Go(m, front).phase))
  }

  lemma {:induction false} CalmMissesNothing(m: Machine, ticks: seq<Tick>)
    requires EditsCalm(m, ticks)
    ensures Go(m, ticks).missed == m.missed
    decreases |ticks|
  {
    if ticks != [] {
      CalmMissesNothing(m, ticks[..|ticks| - 1]);
    }
  }

  /** The controller is lost while an archive removes the volume, or before it has written the row. */
  predicate CutWhileRemoving(op: Op, m: Machine) {
    op.ArchiveOp? && m.todo.Then? && (m.phase.Clearing? || m.phase.Switched?)
  }

  predicate Careful(w: World, e: Event) {
    && (e.WriteRow? ==> w.StoresCurrent(e.index, e.part))
    && (e.Operate? ==>
          var start := Begin(w, ProgramOf(w, e.op));
          && DbOf(e.op).RowWritten?
          && EditsCalm(start, e.ticks) && StoresFresh(start, e.ticks)
          && !CutWhileRemoving(e.op, Go(start, e.ticks)))
  }

  /** Whatever other calls fail and wherever it is cut off, such an operation is admissible. */
  lemma CarefulIsAdmissible(w: World, e: Event)
    requires w.Settled() && Careful(w, e)
    ensures Admissible(w, e)
  {
    if e.Operate? {
      var start := Begin(w, ProgramOf(w, e.op));
      var m := Go(start, e.ticks);
      CalmMissesNothing(start, e.ticks);
      assert EditAll(m.copy, []) == m.copy;
      OpSafe(w, e.op, e.ticks);
    }
  }

  predicate CarefulRun(w: World, events: seq<Event>)
    decreases |events|
  {
    events == [] || (Careful(w, events[0]) && CarefulRun(Apply(w, events[0]), events[1..]))
  }

  /** So over every such run the row names the place that holds the latest contents. */
  lemma {:induction false} CarefulRunSettled(w: World, events: seq<Event>)
    requires w.Settled() && CarefulRun(w, events)
    ensures forall k :: 0 <= k <= |events| ==>
              var now := Run(w, events[..k]);
              now.Settled() && now.Located() == Some(now.latest)
    decreases |events|
  {
    if events != [] {
      CarefulIsAdmissible(w, events[0]);
      ApplySettled(w, events[0]);
      CarefulRunSettled(Apply(w, events[0]), events[1..]);
      forall k | 0 < k <= |events| ensures Run(w, events[..k]) == Run(Apply(w, events[0]), events[1..][..k - 1]) {
        assert events[..k][1..] == events[1..][..k - 1];
      }
    }
  }
}
