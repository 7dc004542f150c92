/** Downloading a depot: selecting chunks, indexing their targets, writing them from parallel workers. */
module Depot {
  import opened ChunkPool
  import opened Common
  import opened FileWrites
  import opened Manifests
  import opened Install
  import opened Delta
  import Adler

  const DEFAULT_WORKERS := 8

  function IdsOf(cs: seq<Chunk>): set<ChunkId> {
    set c | c in cs :: c.id
  }

  ghost predicate DistinctIds(cs: seq<Chunk>) {
    forall i, j :: 0 <= i < j < |cs| ==> cs[i].id != cs[j].id
  }

  ghost predicate Planned(cs: seq<Chunk>, targets: Targets, store: Store, fw: FileWrite) {
    exists c :: c in cs && fw in ChunkTargets(targets, c.id, store)
  }

  // ----- the pool of workers -----

  ghost predicate InRange(job: Job, fetched: seq<nat>) {
    forall j :: 0 <= j < |fetched| ==> fetched[j] < |job.chunks|
  }

  function ChunksAt(job: Job, fetched: seq<nat>): (cs: seq<Chunk>)
    requires InRange(job, fetched)
    ensures |cs| == |fetched|
  {
    seq(|fetched|, j requires 0 <= j < |fetched| => job.chunks[fetched[j]])
  }

  function IdSeq(cs: seq<Chunk>): seq<ChunkId> {
    seq(|cs|, i requires 0 <= i < |cs| => cs[i].id)
  }

  /** Writes of fetched chunks, by position in the queue and by chunk. */
  lemma DueIsPlanned(job: Job, p: Pool, fw: FileWrite)
    requires WritesKept(job, p)
    ensures Due(job, p.status, fw) <==> Planned(ChunksAt(job, p.fetched), job.targets, job.store, fw)
  {
    var cs := ChunksAt(job, p.fetched);
    if i :| 0 <= i < |p.status| && p.status[i].Fetched? && fw in job.Writes(i) {
      var j :| 0 <= j < |p.fetched| && p.fetched[j] == i;
      assert cs[j] == job.chunks[i];
    }
    if c :| c in cs && fw in ChunkTargets(job.targets, c.id, job.store) {
      var j :| 0 <= j < |cs| && cs[j] == c;
      assert p.status[p.fetched[j]].Fetched?;
    }
  }

  /** How much of one kind of work the workers still have: requests, writes, or being free. */
  datatype Kind = Requests | Writes | Waits

  function Weight(w: Worker, k: Kind): nat {
    match (w, k)
    case (Fetching(_), Requests) => 1
    case (Writing(rest), Writes) => 1 + |rest|
    case (Free, Waits) => 1
    case _ => 0
  }

  function Total(ws: seq<Worker>, k: Kind): nat {
    if ws == [] then 0 else Weight(ws[0], k) + Total(ws[1..], k)
  }

  lemma {:induction false} TotalUpdate(ws: seq<Worker>, i: nat, w: Worker, k: Kind)
    requires i < |ws|
    ensures Total(ws[i := w], k) == Total(ws, k) - Weight(ws[i], k) + Weight(w, k)
  {
    if i > 0 {
      TotalUpdate(ws[1..], i - 1, w, k);
      assert ws[i := w][1..] == ws[1..][i - 1 := w];
    } else {
      assert ws[i := w][1..] == ws[1..];
    }
  }

  lemma TotalsUpdate(ws: seq<Worker>, i: nat, w: Worker)
    requires i < |ws|
    ensures forall k :: Total(ws[i := w], k) == Total(ws, k) - Weight(ws[i], k) + Weight(w, k)
  {
    forall k {
      TotalUpdate(ws, i, w, k);
    }
  }

  /** By the queue, then requests, then writes, then waiting. */
  predicate LessToDo(job: Job, q: Pool, p: Pool) {
    && |q.workers| == |p.workers| && p.next <= q.next <= |job.chunks|
    && (q.next == p.next ==>
          && Total(q.workers, Requests) <= Total(p.workers, Requests)
          && (Total(q.workers, Requests) == Total(p.workers, Requests) ==>
                || Total(q.workers, Writes) < Total(p.workers, Writes)
                || (Total(q.workers, Writes) == Total(p.workers, Writes) &&
                    Total(q.workers, Waits) < Total(p.workers, Waits))))
  }

  lemma MoveProgress(job: Job, p: Pool, m: Move)
    requires QueueKept(job, p) && CanMove(p, m) && !m.Cancel?
    ensures LessToDo(job, AfterMove(job, p, m), p)
  {
    var q := AfterMove(job, p, m);
    var w := m.worker;
    assert q.workers == p.workers[w := q.workers[w]];
    TotalsUpdate(p.workers, w, q.workers[w]);
  }

  /** What a move writes to the directory. */
  lemma MoveLogs(job: Job, p: Pool, m: Move, dir: Dir)
    requires QueueKept(job, p) && CanMove(p, m) && !m.Cancel?
    ensures PutAll(dir, AfterMove(job, p, m).log) ==
            if m.WriteOne? && p.workers[m.worker].rest != [] then Put(PutAll(dir, p.log), p.workers[m.worker].rest[0])
            else PutAll(dir, p.log)
  {
    if m.WriteOne? && p.workers[m.worker].rest != [] {
      PutAllAppend(dir, p.log, p.workers[m.worker].rest[0]);
    }
  }

  /** What a move adds to the ids fetched. */
  lemma MoveFetches(job: Job, p: Pool, m: Move) returns (more: seq<ChunkId>)
    requires QueueKept(job, p) && WritesKept(job, p) && CanMove(p, m)
    ensures InRange(job, AfterMove(job, p, m).fetched)
    ensures IdSeq(ChunksAt(job, AfterMove(job, p, m).fetched)) == IdSeq(ChunksAt(job, p.fetched)) + more
  {
    var q := AfterMove(job, p, m);
    more := if q.fetched == p.fetched then [] else [job.chunks[q.fetched[|p.fetched|]].id];
  }

  // ----- what a download has to do -----

  datatype Work = Work(chunks: seq<Chunk>, files: seq<File>, removed: set<string>)

  /** Everything of the manifest, or what the difference to the old one asks for. */
  ghost predicate WorkFor(m: Manifest, prior: Option<Manifest>, work: Work) {
    && DistinctIds(work.chunks)
    && match prior
       case None => work.files == m && IdsOf(work.chunks) == ChunkIds(m) && work.removed == {}
       case Some(was) => exists d :: IsDiff(was, m, d) && WorkOf(m, d, work)
  }

  ghost predicate WorkOf(m: Manifest, d: Diff, work: Work) {
    && IdsOf(work.chunks) == d.download.Keys
    && work.files == FilesToWrite(m, ChangedNames(d)) && work.removed == d.removed
  }

  /** The directory once the chunks in `ids` are written and the removals are done. */
  function Patched(before: Dir, work: Work, ids: set<ChunkId>, store: Store): Dir {
    PutAll(before, Plan(work.files, ids, store)) - work.removed
  }

  ghost predicate NoRepeats(ids: seq<ChunkId>) {
    forall i, j :: 0 <= i < j < |ids| ==> ids[i] != ids[j]
  }

  function SetOf(ids: seq<ChunkId>): set<ChunkId> {
    set id | id in ids
  }

  /** How a download went: `stopped` says that a worker dropped a chunk, `byCaller` that the caller cancelled. */
  datatype Outcome = Outcome(work: Work, ids: seq<ChunkId>, stopped: bool, byCaller: bool)

  class DepotDownloader {
    var dir: Dir
    /** Ids fetched from the content servers, in order of completion. */
    ghost var fetched: seq<ChunkId>

    constructor (dir: Dir)
      ensures this.dir == dir && fetched == []
    {
      this.dir, fetched := dir, [];
    }

    /**
     The pool of workers. Which worker moves, whether and when the caller cancels, and whether
     a request then under way succeeds are arbitrary. `p` is the state in which the last worker
     returned: success means only that no worker reported an error.
     */
    method DownloadChunksParallel(chunks: seq<Chunk>, targets: Targets, store: Store, workers: int)
        returns (ok: bool, ghost p: Pool, ghost byCaller: bool)
      modifies this
      ensures Account(Job(chunks, targets, store), p, byCaller) && Finished(p)
      ensures ok <==> !Erred(p)
      ensures |p.workers| == if workers <= 0 then 8 else workers
      ensures ok ==> (Complete(p) <==> !Stopped(p))
      ensures !byCaller ==> (ok <==> forall c :: c in chunks ==> Acceptable(c, store)) && (ok ==> !Stopped(p))
      ensures forall i :: 0 <= i < |chunks| && (p.status[i].Fetched? || (ok && !Stopped(p))) ==>
                var c := chunks[i];
                c.id in store && |store[c.id]| % 0x1_0000_0000 == c.size &&
                  (c.checksum != 0 ==>
                     c.checksum == Adler.WeightedSum(store[c.id]) % 65521 * 65536 + Adler.ByteSum(store[c.id]) % 65521)
      ensures dir == PutAll(old(dir), p.log)
      ensures fetched == old(fetched) + IdSeq(ChunksAt(Job(chunks, targets, store), p.fetched))
    {
      var job, count := Job(chunks, targets, store), if workers <= 0 then DEFAULT_WORKERS else workers;
      var pool := Start(job, count);
      byCaller := false;
      StartAccount(job, count);
      while exists w :: 0 <= w < |pool.workers| && !pool.workers[w].Gone?
        invariant |pool.workers| == count && Account(job, pool, byCaller)
        invariant dir == PutAll(old(dir), pool.log)
        invariant fetched == old(fetched) + IdSeq(ChunksAt(job, pool.fetched))
        decreases |chunks| - pool.next, Total(pool.workers, Requests), Total(pool.workers, Writes),
                  Total(pool.workers, Waits), if pool.cancelled then 0 else 1
      {
        var strikes: bool := *;
        if strikes && !pool.cancelled {
          MoveKeepsAccount(job, pool, Cancel, byCaller);
          pool, byCaller := AfterMove(job, pool, Cancel), true;
        } else {
          var w :| 0 <= w < |pool.workers| && !pool.workers[w].Gone?;
          pool := Advance(job, pool, w, byCaller, old(dir), old(fetched));
        }
      }
      ok := forall i :: 0 <= i < |pool.status| ==> !pool.status[i].Failed?;
      p := pool;
      CallOutcome(job, p, byCaller);
      forall i | 0 <= i < |chunks| && (p.status[i].Fetched? || (ok && !Stopped(p))) {
        FetchedDataIsVerified(job, p, byCaller, i);
      }
    }

    /** One step of one worker; `dir0` and `ids0` are from before the call. */
    method Advance(job: Job, p: Pool, w: nat, ghost byCaller: bool, ghost dir0: Dir, ghost ids0: seq<ChunkId>)
        returns (after: Pool)
      requires Account(job, p, byCaller) && w < |p.workers| && !p.workers[w].Gone?
      requires dir == PutAll(dir0, p.log) && fetched == ids0 + IdSeq(ChunksAt(job, p.fetched))
      modifies this
      ensures Account(job, after, byCaller) && LessToDo(job, after, p)
      ensures dir == PutAll(dir0, after.log) && fetched == ids0 + IdSeq(ChunksAt(job, after.fetched))
    {
      var move := NextMove(p, w);
      if move.WriteOne? && p.workers[w].rest != [] {
        dir := Put(dir, p.workers[w].rest[0]);
      }
      MoveKeepsAccount(job, p, move, byCaller);
      MoveProgress(job, p, move);
      MoveLogs(job, p, move, dir0);
      ghost var more := MoveFetches(job, p, move);
      fetched := fetched + more;
      after := AfterMove(job, p, move);
    }

    method NextMove(p: Pool, w: nat) returns (move: Move)
      requires w < |p.workers| && !p.workers[w].Gone?
      ensures CanMove(p, move) && !move.Cancel? && move.worker == w
    {
      match p.workers[w] {
        case Free => move := Take(w);
        case Fetching(_) =>
          var lucky: bool := *;
          move := Answer(w, lucky);
        case Writing(_) => move := WriteOne(w);
      }
    }

    /**
     Download a depot into the directory, in full or as an update from `prior`. A reported
     success is complete exactly when no worker dropped a chunk, and then it installs.
     */
    method Download(m: Manifest, prior: Option<Manifest>, store: Store, workers: int)
        returns (ok: bool, ghost o: Outcome)
      modifies this
      ensures WorkFor(m, prior, o.work)
      ensures !o.byCaller ==> (ok <==> forall c :: c in o.work.chunks ==> Acceptable(c, store)) && (ok ==> !o.stopped)
      // no chunk is fetched twice; all needed ones are exactly if none was dropped
      ensures fetched == old(fetched) + o.ids && NoRepeats(o.ids) && SetOf(o.ids) <= IdsOf(o.work.chunks)
      ensures ok ==> (SetOf(o.ids) == IdsOf(o.work.chunks) <==> !o.stopped)
      // nothing is installed unverified
      ensures forall c :: c in o.work.chunks && (c.id in o.ids || (ok && !o.stopped)) ==>
                c.id in store && |store[c.id]| % 0x1_0000_0000 == c.size &&
                  (c.checksum != 0 ==>
                     c.checksum == Adler.WeightedSum(store[c.id]) % 65521 * 65536 + Adler.ByteSum(store[c.id]) % 65521)
      // the directory is the same for every schedule that fetches the same chunks
      ensures ok && SoundManifest(m, store) ==> dir == Patched(old(dir), o.work, SetOf(o.ids), store)
      ensures !ok && SoundManifest(m, store) ==> dir == PutAll(old(dir), Plan(o.work.files, SetOf(o.ids), store))
      // what is installed
      ensures ok && !o.stopped && SoundManifest(m, store) && prior.None? && old(dir) == map[] ==>
                IsInstall(dir, m, store)
      ensures ok && !o.stopped && SoundManifest(m, store) && CanInstall(old(dir), m, prior, store) ==>
                IsInstall(dir, m, store)
    {
      var work := ChooseWork(m, prior);
      ok, o := FetchWork(work, store, workers);
      if SoundManifest(m, store) {
        WorkIsSound(m, prior, work, store);
      }
      if !ok {
        return;
      }
      dir := dir - work.removed;
      if SoundManifest(m, store) && SetOf(o.ids) == IdsOf(work.chunks) && CanInstall(old(dir), m, prior, store) {
        CompleteResultInstalls(old(dir), m, prior, work, store);
      }
    }

    /** Fetch the chunks and write them to their targets. */
    method FetchWork(work: Work, store: Store, workers: int) returns (ok: bool, ghost o: Outcome)
      requires DistinctIds(work.chunks)
      modifies this
      ensures o.work == work
      ensures !o.byCaller ==> (ok <==> forall c :: c in work.chunks ==> Acceptable(c, store)) && (ok ==> !o.stopped)
      ensures fetched == old(fetched) + o.ids && NoRepeats(o.ids) && SetOf(o.ids) <= IdsOf(work.chunks)
      ensures ok ==> (SetOf(o.ids) == IdsOf(work.chunks) <==> !o.stopped)
      ensures forall c :: c in work.chunks && (c.id in o.ids || (ok && !o.stopped)) ==>
                c.id in store && |store[c.id]| % 0x1_0000_0000 == c.size &&
                  (c.checksum != 0 ==>
                     c.checksum == Adler.WeightedSum(store[c.id]) % 65521 * 65536 + Adler.ByteSum(store[c.id]) % 65521)
      ensures SoundManifest(work.files, store) ==> dir == PutAll(old(dir), Plan(work.files, SetOf(o.ids), store))
    {
      var targets := IndexTargets(work.files);
      ghost var p, byCaller;
      ok, p, byCaller := DownloadChunksParallel(work.chunks, targets, store, workers);
      ghost var job := Job(work.chunks, targets, store);
      o := Outcome(work, IdSeq(ChunksAt(job, p.fetched)), Stopped(p), byCaller);
      FetchedIds(job, p);
      forall c | c in work.chunks && (c.id in o.ids || (ok && !o.stopped))
        ensures exists i :: 0 <= i < |work.chunks| && work.chunks[i] == c &&
                            (p.status[i].Fetched? || (ok && !Stopped(p)))
      {
        var i :| 0 <= i < |work.chunks| && work.chunks[i] == c;
        FetchedId(job, p, i);
        SetOfIds(ChunksAt(job, p.fetched));
        assert c.id in o.ids ==> c.id in SetOf(o.ids);
      }
      if SoundManifest(work.files, store) {
        CallFollowsPlan(job, p, byCaller, work.files, old(dir));
      }
    }

    method ChooseWork(m: Manifest, prior: Option<Manifest>) returns (work: Work)
      ensures WorkFor(m, prior, work)
    {
      if prior.None? {
        var chunks := SelectChunks(m);
        return Work(chunks, m, {});
      }
      var diff := DiffManifests(prior.value, m);
      var chunks := ListChunks(diff.download);
      var files := PickFiles(m, set n | n in diff.added + diff.changed);
      work := Work(chunks, files, diff.removed);
      assert WorkOf(m, diff, work);
    }
  }

  /** The directory after a call is that of the plan for the chunks it fetched. */
  lemma CallFollowsPlan(job: Job, p: Pool, byCaller: bool, files: seq<File>, before: Dir)
    requires Account(job, p, byCaller) && Finished(p)
    requires SoundManifest(files, job.store) && Indexes(job.targets, files)
    ensures PutAll(before, p.log) == PutAll(before, Plan(files, IdsOf(ChunksAt(job, p.fetched)), job.store))
  {
    var cs := ChunksAt(job, p.fetched);
    CallOutcome(job, p, byCaller);
    forall fw ensures fw in p.log <==> Planned(cs, job.targets, job.store, fw) {
      DueIsPlanned(job, p, fw);
    }
    LogFollowsPlan(before, files, cs, job.targets, job.store, p.log);
  }

  lemma SetOfIds(cs: seq<Chunk>)
    ensures SetOf(IdSeq(cs)) == IdsOf(cs)
  {
    forall id | id in IdsOf(cs) ensures id in IdSeq(cs) {
      var j :| 0 <= j < |cs| && cs[j].id == id;
      assert IdSeq(cs)[j] == id;
    }
  }

  lemma FetchedIds(job: Job, p: Pool)
    requires WritesKept(job, p) && DistinctIds(job.chunks)
    ensures NoRepeats(IdSeq(ChunksAt(job, p.fetched)))
    ensures SetOf(IdSeq(ChunksAt(job, p.fetched))) == IdsOf(ChunksAt(job, p.fetched)) <= IdsOf(job.chunks)
    ensures IdsOf(ChunksAt(job, p.fetched)) == IdsOf(job.chunks) <==> Complete(p)
  {
    var cs := ChunksAt(job, p.fetched);
    SetOfIds(cs);
    if Complete(p) {
      forall i | 0 <= i < |job.chunks| ensures job.chunks[i].id in IdsOf(cs) {
        FetchedId(job, p, i);
      }
    } else {
      var i :| 0 <= i < |p.status| && !p.status[i].Fetched?;
      FetchedId(job, p, i);
      assert job.chunks[i].id in IdsOf(job.chunks);
    }
  }

  lemma FetchedId(job: Job, p: Pool, i: nat)
    requires WritesKept(job, p) && DistinctIds(job.chunks) && i < |job.chunks|
    ensures job.chunks[i].id in IdsOf(ChunksAt(job, p.fetched)) <==> p.status[i].Fetched?
  {
    var cs := ChunksAt(job, p.fetched);
    if p.status[i].Fetched? {
      var j :| 0 <= j < |p.fetched| && p.fetched[j] == i;
      assert cs[j] == job.chunks[i];
    }
    if job.chunks[i].id in IdsOf(cs) {
      var j :| 0 <= j < |cs| && cs[j].id == job.chunks[i].id;
      assert p.fetched[j] == i;
    }
  }

  lemma WorkIsSound(m: Manifest, prior: Option<Manifest>, work: Work, store: Store)
    requires WorkFor(m, prior, work) && SoundManifest(m, store)
    ensures SoundManifest(work.files, store)
  {
    if prior.Some? {
      var d :| IsDiff(prior.value, m, d) && WorkOf(m, d, work);
      WrittenFilesAreSound(prior.value, m, d, store);
    }
  }

  /** An empty directory, or an old install whose reused chunks are in place and whose files do not lose coverage. */
  ghost predicate CanInstall(before: Dir, m: Manifest, prior: Option<Manifest>, store: Store) {
    match prior
    case None => before == map[]
    case Some(was) =>
      && SoundManifest(was, store) && IsInstall(before, was, store) && HonestHashes(was, m, store)
      && ReusedInPlace(was, m) && KeepsCoverage(was, m, store)
  }

  /** With all its chunks, a download into an empty directory or over an old install installs. */
  lemma CompleteResultInstalls(before: Dir, m: Manifest, prior: Option<Manifest>, work: Work, store: Store)
    requires WorkFor(m, prior, work) && SoundManifest(m, store)
    requires CanInstall(before, m, prior, store)
    ensures IsInstall(Patched(before, work, IdsOf(work.chunks), store), m, store)
  {
    if prior.None? {
      FullDownloadInstalls(m, store);
      var after := PutAll(before, Plan(m, ChunkIds(m), store));
      assert after - {} == after;
    } else {
      var d :| IsDiff(prior.value, m, d) && WorkOf(m, d, work);
      assert Patched(before, work, IdsOf(work.chunks), store) == DeltaResult(before, m, d, store);
      InPlaceDeltaInstalls(before, prior.value, m, d, store);
    }
  }

  /** Whatever order the workers wrote in, the directory is that of the file-by-file plan. */
  lemma LogFollowsPlan(dir: Dir, files: seq<File>, chunks: seq<Chunk>, targets: Targets, store: Store,
                       log: seq<FileWrite>)
    requires SoundManifest(files, store) && Indexes(targets, files)
    requires forall fw :: fw in log <==> Planned(chunks, targets, store, fw)
    ensures PutAll(dir, log) == PutAll(dir, Plan(files, IdsOf(chunks), store))
  {
    var plan := Plan(files, IdsOf(chunks), store);
    forall fw ensures fw in plan <==> fw in log {
      PlanMembers(files, IdsOf(chunks), store, fw);
      PlannedIsInPlan(files, chunks, targets, store, fw);
    }
    SoundPlanIsCompatible(files, IdsOf(chunks), store);
    PlanOrderIsImmaterial(dir, plan, log);
  }

  // ----- selecting chunks and indexing targets -----

  ghost predicate HasTarget(files: seq<File>, id: ChunkId, t: Target) {
    exists f, c :: f in files && Present(f) && c in f.chunks && c.id == id && t == Target(f.name, c.offset)
  }

  ghost predicate Indexes(targets: Targets, files: seq<File>) {
    forall id, t :: (id in targets && t in targets[id]) <==> HasTarget(files, id, t)
  }

  lemma PlannedIsInPlan(files: seq<File>, chunks: seq<Chunk>, targets: Targets, store: Store, fw: FileWrite)
    requires Indexes(targets, files)
    ensures Planned(chunks, targets, store, fw) <==> InPlan(files, IdsOf(chunks), store, fw)
  {
    if Planned(chunks, targets, store, fw) {
      var c :| c in chunks && fw in ChunkTargets(targets, c.id, store);
      var i :| 0 <= i < |targets[c.id]| && fw == ChunkTargets(targets, c.id, store)[i];
      assert HasTarget(files, c.id, targets[c.id][i]);
      var f, e :| f in files && Present(f) && e in f.chunks && e.id == c.id &&
                  targets[c.id][i] == Target(f.name, e.offset);
      assert fw == FileWrite(f.name, ChunkWrite(e, store));
    }
    if InPlan(files, IdsOf(chunks), store, fw) {
      var f, e :| f in files && Present(f) && e in f.chunks && e.id in IdsOf(chunks) &&
                  fw == FileWrite(f.name, ChunkWrite(e, store));
      var c :| c in chunks && c.id == e.id;
      var t := Target(f.name, e.offset);
      assert HasTarget(files, c.id, t);
      var i :| 0 <= i < |targets[c.id]| && targets[c.id][i] == t;
      assert ChunkTargets(targets, c.id, store)[i] == fw;
    }
  }

  lemma IdsAppend(cs: seq<Chunk>, c: Chunk)
    ensures IdsOf(cs + [c]) == IdsOf(cs) + {c.id}
    ensures DistinctIds(cs) && c.id !in IdsOf(cs) ==> DistinctIds(cs + [c])
  {
    assert forall e :: e in cs + [c] <==> e in cs || e == c;
    assert forall j :: 0 <= j < |cs| ==> cs[j].id in IdsOf(cs);
  }

  ghost predicate FromManifest(m: Manifest, cs: seq<Chunk>) {
    forall c :: c in cs ==> exists f :: f in m && c in f.chunks
  }

  /** All chunks of a manifest, each id once. */
  method SelectChunks(m: Manifest) returns (chunks: seq<Chunk>)
    ensures IdsOf(chunks) == ChunkIds(m) && DistinctIds(chunks) && FromManifest(m, chunks)
  {
    chunks := [];
    for i := 0 to |m|
      invariant IdsOf(chunks) == ChunkIds(m[..i]) && DistinctIds(chunks) && FromManifest(m, chunks)
    {
      chunks := AddChunks(m, m[i], chunks);
      assert m[..i + 1] == m[..i] + [m[i]];
      assert ChunkIds(m[..i + 1]) == ChunkIds(m[..i]) + IdsOf(m[i].chunks);
    }
    assert m[..|m|] == m;
  }

  method AddChunks(ghost m: Manifest, f: File, before: seq<Chunk>) returns (chunks: seq<Chunk>)
    requires f in m && DistinctIds(before) && FromManifest(m, before)
    ensures IdsOf(chunks) == IdsOf(before) + IdsOf(f.chunks) && DistinctIds(chunks) && FromManifest(m, chunks)
  {
    chunks := before;
    for k := 0 to |f.chunks|
      invariant IdsOf(chunks) == IdsOf(before) + IdsOf(f.chunks[..k])
      invariant DistinctIds(chunks) && FromManifest(m, chunks)
    {
      var c := f.chunks[k];
      assert f.chunks[..k + 1] == f.chunks[..k] + [c];
      IdsAppend(f.chunks[..k], c);
      IdsAppend(chunks, c);
      if c.id !in IdsOf(chunks) {
        chunks := chunks + [c];
      }
    }
    assert f.chunks[..|f.chunks|] == f.chunks;
  }

  /** The values of a download map in some order. */
  method ListChunks(download: map<ChunkId, Chunk>) returns (chunks: seq<Chunk>)
    requires forall id :: id in download ==> download[id].id == id
    ensures IdsOf(chunks) == download.Keys && DistinctIds(chunks)
    ensures forall c :: c in chunks ==> c.id in download && download[c.id] == c
  {
    chunks := [];
    var todo := download.Keys;
    while todo != {}
      invariant todo <= download.Keys && IdsOf(chunks) == download.Keys - todo && DistinctIds(chunks)
      invariant forall c :: c in chunks ==> c.id in download && download[c.id] == c
    {
      var id :| id in todo;
      IdsAppend(chunks, download[id]);
      chunks := chunks + [download[id]];
      todo := todo - {id};
    }
  }

  method PickFiles(m: Manifest, names: set<string>) returns (files: seq<File>)
    ensures files == FilesToWrite(m, names)
  {
    files := [];
    for i := 0 to |m|
      invariant files == FilesToWrite(m[..i], names)
    {
      assert m[..i + 1][..i] == m[..i];
      if m[i].name in names {
        files := files + [m[i]];
      }
    }
    assert m[..|m|] == m;
  }

  /** For each chunk id, where its data goes. */
  method IndexTargets(files: seq<File>) returns (targets: Targets)
    ensures Indexes(targets, files)
  {
    targets := map[];
    for i := 0 to |files|
      invariant Indexes(targets, files[..i])
    {
      var f := files[i];
      assert files[..i + 1] == files[..i] + [f];
      TargetsGrow(files[..i], f);
      if !f.directory {
        targets := AddTargets(targets, files[..i], f);
      }
    }
    assert files[..|files|] == files;
  }

  ghost predicate OwnTarget(name: string, chunks: seq<Chunk>, id: ChunkId, t: Target) {
    exists c :: c in chunks && c.id == id && t == Target(name, c.offset)
  }

  lemma TargetsGrow(files: seq<File>, f: File)
    ensures forall id, t :: HasTarget(files + [f], id, t) <==>
                            HasTarget(files, id, t) || (!f.directory && OwnTarget(f.name, f.chunks, id, t))
  {
    assert forall g :: g in files + [f] <==> g in files || g == f;
  }

  lemma OwnTargetsGrow(name: string, chunks: seq<Chunk>, c: Chunk)
    ensures forall id, t :: OwnTarget(name, chunks + [c], id, t) <==>
                            OwnTarget(name, chunks, id, t) || (id == c.id && t == Target(name, c.offset))
  {
    assert forall e :: e in chunks + [c] <==> e in chunks || e == c;
  }

  method AddTargets(before: Targets, ghost files: seq<File>, f: File) returns (targets: Targets)
    requires Indexes(before, files) && !f.directory
    ensures Indexes(targets, files + [f])
  {
    targets := before;
    for k := 0 to |f.chunks|
      invariant forall id, t :: (id in targets && t in targets[id]) <==>
                  HasTarget(files, id, t) || OwnTarget(f.name, f.chunks[..k], id, t)
    {
      var c := f.chunks[k];
      assert f.chunks[..k + 1] == f.chunks[..k] + [c];
      OwnTargetsGrow(f.name, f.chunks[..k], c);
      targets := targets[c.id := (if c.id in targets then targets[c.id] else []) + [Target(f.name, c.offset)]];
    }
    assert f.chunks[..|f.chunks|] == f.chunks;
    TargetsGrow(files, f);
  }

  // ----- a cancelled download that reports success -----

  /**
   A file of two chunks, one worker, and a caller that cancels while the first chunk is being
   written: the call reports no error, and the file is too short.
   */
  lemma CancelledDownloadExample(f: File, first: Chunk, second: Chunk, store: Store)
    requires Present(f) && f.chunks == [first, second] && first.id != second.id
    requires Acceptable(first, store) && Acceptable(second, store) && store[first.id] != [] && store[second.id] != []
    requires first.offset == 0 && second.offset == |store[first.id]|
    ensures
      var targets := map[first.id := [Target(f.name, first.offset)], second.id := [Target(f.name, second.offset)]];
      var p := Run(Job([first, second], targets, store), 1, CANCELLED);
      && Indexes(targets, [f]) && (Finished(p), Erred(p), Stopped(p)) == (true, false, true)
      && !IsInstall(PutAll(map[], p.log), [f], store)
  {
    var targets := map[first.id := [Target(f.name, first.offset)], second.id := [Target(f.name, second.offset)]];
    var job := Job([first, second], targets, store);
    var p := Run(job, 1, CANCELLED);
    CancelledCallSucceeds(job);
    assert p.status[1].Dropped?;
    var fw := FileWrite(f.name, Write(0, store[first.id]));
    assert p.log == [fw] && p.log[..0] == [];
    var dir := PutAll(map[], p.log);
    assert dir == Put(PutAll(map[], []), fw);
    assert |dir[f.name]| == |store[first.id]|;
    assert f in [f] && second in f.chunks && ChunkWrite(second, store).End() > |dir[f.name]|;
  }
}
