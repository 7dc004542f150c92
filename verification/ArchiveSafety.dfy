/** Archive and unarchive keep the contents, whatever fails and whenever requests come. */
module ArchiveSafety {
  import opened Common
  import opened Relocation

  // ----- archive -----

  /** Which actions an archive of the volume on `n` takes in which phase. */
  predicate ArchiveMay(a: Action, n: Node, p: Phase) {
    match a
    case Stop => p == Begun
    case Backup(k) => k == n && p == Idle
    case Put(place, _) => place.InArchive? && p == Copied
    case Save(place) => place.InArchive? && p == Copied
    case Damage(k, _) => k == n && p in {Kept, Clearing}
    case DropVolume(k) => k == n && p == Clearing
    case Vacate => p == Clearing
    case RowVacated => p == Switched
    case _ => false
  }

  predicate ArchiveFits(todo: Program, n: Node, p: Phase, db: RowWrite) {
    match todo
    case Done(ok) => p != Clearing && (ok ==> p == Named) && (p == Switched ==> !db.RowWritten?)
    case Then(a, rest) => ArchiveMay(a, n, p) && ArchiveFits(rest, n, PhaseAfter(p, a), db)
  }

  ghost predicate ArchiveInv(m: Machine, n: Node, db: RowWrite) {
    var w, p := m.world, m.phase;
    && ArchiveFits(m.todo, n, p, db) && ArchiveData(m, n)
    && w.row == (if p.Named? then ARCHIVED else On(n))
    && w.spec == (if Turned(p) then ARCHIVED else On(n))
    && w.worker == (if Turned(p) then None else Some(n))
    && (w.instance.Some? ==> p.Begun? && w.instance == Some(n))
  }

  ghost predicate ArchiveData(m: Machine, n: Node) {
    var w, p := m.world, m.phase;
    && m.later == [] && !p.Loaded? && !p.Replaced?
    && (Early(p) || p.Copied? || p.Kept? ==> n in w.volumes && w.volumes[n] == w.latest)
    && (if Early(p) then m.missed == [] else w.latest == EditAll(m.copy, m.missed))
    && (p.Copied? ==> m.stream == m.copy)
    && (p.Kept? || p.Clearing? || Turned(p) ==> w.archive == Some(m.copy))
  }

  lemma ArchiveStarts(w: World, f: ArchiveCalls)
    requires w.Settled() && !w.spec.archived && w.worker.Some?
    ensures ArchiveInv(Begin(w, ArchiveProgram(w, f)), w.worker.value, f.db)
  {
    var n := w.worker.value;
    var switching := Then(Vacate, Persisting(RowVacated, f.db, Done(true)));
    assert ArchiveFits(switching, n, Clearing, f.db);
    assert ArchiveFits(Removing(n, f.remove, switching), n, Kept, f.db);
    ArchiveSavingFits(f.save, Removing(n, f.remove, switching), n, f.db);
  }

  lemma ArchiveSavingFits(s: Save, rest: Program, n: Node, db: RowWrite)
    requires ArchiveFits(rest, n, Kept, db)
    ensures ArchiveFits(Saving(InArchive, s, rest), n, Copied, db)
  {
    if s.CompressFailed? {
      assert ArchiveFits(Then(Put(InArchive, None), Done(false)), n, Copied, db);
    }
  }

  lemma ArchiveStorageTurn(m: Machine, n: Node, db: RowWrite)
    requires ArchiveInv(m, n, db) && m.todo.Then? && OnStorage(m.todo.first)
    ensures ArchiveInv(Next(m), n, db)
  {
  }

  lemma ArchiveTurn(m: Machine, n: Node, db: RowWrite)
    requires ArchiveInv(m, n, db)
    ensures ArchiveInv(Next(m), n, db)
  {
    if m.todo.Then? && OnStorage(m.todo.first) {
      ArchiveStorageTurn(m, n, db);
    }
  }

  lemma ArchiveEdit(m: Machine, n: Node, db: RowWrite, e: Edit)
    requires ArchiveInv(m, n, db)
    ensures ArchiveInv(Request(m, e), n, db)
  {
    EditAllAppend(m.copy, m.missed, e);
  }

  lemma {:induction false} ArchiveGo(m: Machine, n: Node, db: RowWrite, ticks: seq<Tick>)
    requires ArchiveInv(m, n, db) && StoresFresh(m, ticks)
    ensures forall k :: 0 <= k <= |ticks| ==> ArchiveInv(Go(m, ticks[..k]), n, db)
    decreases |ticks|
  {
    assert ticks[..|ticks|] == ticks;
    if ticks != [] {
      var front, last := ticks[..|ticks| - 1], ticks[|ticks| - 1];
      ArchiveGo(m, n, db, front);
      assert front[..|front|] == front && forall k :: 0 <= k < |ticks| ==> ticks[..k] == front[..k];
      match last {
        case Turn => ArchiveTurn(Go(m, front), n, db);
        case FileEdit(e) => ArchiveEdit(Go(m, front), n, db, e);
        case LoadRow =>
        case StoreRow(i, part) => CurrentStoreIsIdle(Go(m, front), i, part);
      }
    }
  }

  /**
   An archive at any moment of any schedule. Before the removal starts a restarted controller
   is settled. From then on the archive object holds what the backup read, which is the latest
   contents unless an edit was missed; the row names it once it is written. It ends settled
   exactly when it ends before the switch, or writes the row and missed nothing.
   */
  lemma {:induction false} ArchiveSafe(w: World, f: ArchiveCalls, ticks: seq<Tick>)
    requires w.Settled() && StoresFresh(Begin(w, ArchiveProgram(w, f)), ticks)
    ensures
      var m := Go(Begin(w, ArchiveProgram(w, f)), ticks);
      && (!m.phase.Clearing? && !Turned(m.phase) ==> Restarted(m.world).Settled())
      && (m.phase.Clearing? || Turned(m.phase) ==>
            m.world.archive == Some(m.copy) && m.world.latest == EditAll(m.copy, m.missed))
      && (m.phase == Named ==> (Restarted(m.world).Settled() <==> Harmless(m)))
      && ((!m.phase.Clearing? && !Turned(m.phase)) || Harmless(m) ==> m.world.CopyExists())
      && (m.todo.Done? ==> (m.world.Settled() <==> Sound(m)) && (m.phase == Switched ==> !f.db.RowWritten?))
  {
    var m := Go(Begin(w, ArchiveProgram(w, f)), ticks);
    if w.spec.archived || w.worker.None? {
      IdleGo(w, ticks);
    } else {
      ArchiveStarts(w, f);
      ArchiveGo(Begin(w, ArchiveProgram(w, f)), w.worker.value, f.db, ticks);
      assert ticks[..|ticks|] == ticks;
      assert !m.phase.Clearing? && !Turned(m.phase) ==> w.worker.value in m.world.volumes;
    }
  }

  // ----- unarchive -----

  predicate UnarchiveMay(a: Action, n: Node, p: Phase) {
    match a
    case CreateVolume(k) => k == n && p == Begun
    case Load(place) => place.InArchive? && p == Begun
    case PutVolume(k, _) => k == n && p == Loaded
    case RestoreVolume(k) => k == n && p == Loaded
    case Settle(k) => k == n && p == Replaced
    case RowSettled(k) => k == n && p == Switched
    case _ => false
  }

  predicate UnarchiveFits(todo: Program, n: Node, p: Phase, db: RowWrite) {
    match todo
    case Done(ok) => (ok ==> p == Named) && (p == Switched ==> !db.RowWritten?)
    case Then(a, rest) => UnarchiveMay(a, n, p) && UnarchiveFits(rest, n, PhaseAfter(p, a), db)
  }

  ghost predicate UnarchiveInv(m: Machine, n: Node, db: RowWrite) {
    var w, p := m.world, m.phase;
    && UnarchiveFits(m.todo, n, p, db)
    && (p.Begun? || p.Loaded? || p.Replaced? || Turned(p))
    && w.row == (if p == Named then On(n) else ARCHIVED)
    && w.spec == (if Turned(p) then On(n) else ARCHIVED)
    && w.worker == (if Turned(p) then Some(n) else None)
    && w.instance.None? && m.missed == []
    && (p != Named ==> w.archive == Some(w.latest))
    && (p == Loaded ==> m.stream == w.latest)
    && (p.Replaced? || Turned(p) ==> n in w.volumes && w.volumes[n] == w.latest)
  }

  lemma UnarchiveBegins(w: World, onto: Option<Node>, f: UnarchiveCalls)
    requires w.Settled() && UnarchiveStarts(w, onto, f)
    ensures UnarchiveInv(Begin(w, UnarchiveProgram(w, onto, f)), UnarchiveTarget(onto, f).value, f.db)
  {
    var n := UnarchiveTarget(onto, f).value;
    assert UnarchiveFits(Then(Settle(n), Persisting(RowSettled(n), f.db, Done(true))), n, Replaced, f.db);
    assert UnarchiveFits(Unpacking(n, f), n, Loaded, f.db);
  }

  lemma UnarchiveTurn(m: Machine, n: Node, db: RowWrite)
    requires UnarchiveInv(m, n, db)
    ensures UnarchiveInv(Next(m), n, db)
  {
  }

  lemma {:induction false} UnarchiveGo(m: Machine, n: Node, db: RowWrite, ticks: seq<Tick>)
    requires UnarchiveInv(m, n, db) && StoresFresh(m, ticks)
    ensures forall k :: 0 <= k <= |ticks| ==> UnarchiveInv(Go(m, ticks[..k]), n, db)
    decreases |ticks|
  {
    assert ticks[..|ticks|] == ticks;
    if ticks != [] {
      var front, last := ticks[..|ticks| - 1], ticks[|ticks| - 1];
      UnarchiveGo(m, n, db, front);
      assert front[..|front|] == front && forall k :: 0 <= k < |ticks| ==> ticks[..k] == front[..k];
      match last {
        case Turn => UnarchiveTurn(Go(m, front), n, db);
        case FileEdit(_) =>
        case LoadRow =>
        case StoreRow(i, part) => CurrentStoreIsIdle(Go(m, front), i, part);
      }
    }
  }

  /**
   An unarchive at any moment of any schedule: the row names a complete copy, because file
   requests are refused until the row is written. It ends settled unless the row write failed.
   */
  lemma UnarchiveSafe(w: World, onto: Option<Node>, f: UnarchiveCalls, ticks: seq<Tick>)
    requires w.Settled() && StoresFresh(Begin(w, UnarchiveProgram(w, onto, f)), ticks)
    ensures
      var m := Go(Begin(w, UnarchiveProgram(w, onto, f)), ticks);
      && Restarted(m.world).Settled() && m.world.CopyExists() && Harmless(m)
      && (m.todo.Done? ==> (m.world.Settled() <==> Sound(m)) && (m.phase == Switched ==> !f.db.RowWritten?))
  {
    var m := Go(Begin(w, UnarchiveProgram(w, onto, f)), ticks);
    if UnarchiveStarts(w, onto, f) {
      UnarchiveBegins(w, onto, f);
      UnarchiveGo(Begin(w, UnarchiveProgram(w, onto, f)), UnarchiveTarget(onto, f).value, f.db, ticks);
      assert ticks[..|ticks|] == ticks;
    } else {
      IdleGo(w, ticks);
    }
    assert EditAll(m.copy, []) == m.copy;
    assert m.world.Located() == Some(m.world.latest);
  }
}
