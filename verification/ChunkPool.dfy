/**
 The workers that fetch chunks in parallel, as a state machine over their steps. Which worker
 moves next, when the caller cancels, and whether a request under way when that happens still
 succeeds are all left open, so what holds of every run holds for every number of workers,
 every order of completion and every moment of cancellation.
 */
module ChunkPool {
  import opened Common
  import opened FileWrites
  import opened Manifests
  import opened Install
  import Adler

  datatype Target = Target(path: string, offset: nat)

  type Targets = map<ChunkId, seq<Target>>

  /** Fetched data is accepted when its checksum, if there is one, and its size are right. */
  predicate Acceptable(c: Chunk, store: Store) {
    && c.id in store
    && (c.checksum != 0 ==> Adler.Checksum(store[c.id]) == c.checksum)
    && |store[c.id]| % TWO_32 == c.size
  }

  /** The writes one chunk's data goes to. */
  function ChunkTargets(targets: Targets, id: ChunkId, store: Store): seq<FileWrite> {
    if id in targets then
      seq(|targets[id]|, i requires 0 <= i < |targets[id]| =>
        FileWrite(targets[id][i].path, Write(targets[id][i].offset, Content(store, id))))
    else []
  }

  /** What the call is about. */
  datatype Job = Job(chunks: seq<Chunk>, targets: Targets, store: Store)
  {
    function Writes(i: nat): seq<FileWrite>
      requires i < |chunks|
    {
      ChunkTargets(targets, chunks[i].id, store)
    }
  }

  /** A worker waits for the queue, is in a request for a chunk, writes its data, or has returned. */
  datatype Worker = Free | Fetching(chunk: nat) | Writing(rest: seq<FileWrite>) | Gone

  /** What became of a chunk. `Dropped`: taken from the queue by a worker that then saw the cancellation. */
  datatype Status = Queued | InFlight(worker: nat) | Fetched | Dropped | Failed

  datatype Pool = Pool(
    status: seq<Status>, next: nat, workers: seq<Worker>, cancelled: bool, fetched: seq<nat>, log: seq<FileWrite>)

  /** `lucky`: a request under way when the call is cancelled still succeeds. */
  datatype Move = Cancel | Take(worker: nat) | Answer(worker: nat, lucky: bool) | WriteOne(worker: nat)

  predicate CanMove(p: Pool, m: Move) {
    match m
    case Cancel => true
    case Take(w) => w < |p.workers| && p.workers[w].Free?
    case Answer(w, _) => w < |p.workers| && p.workers[w].Fetching?
    case WriteOne(w) => w < |p.workers| && p.workers[w].Writing?
  }

  function Start(job: Job, workers: nat): Pool {
    Pool(seq(|job.chunks|, _ => Queued), 0, seq(workers, _ => Free), false, [], [])
  }

  predicate WellFormed(job: Job, p: Pool) {
    && |p.status| == |job.chunks| && p.next <= |job.chunks|
    && forall w :: 0 <= w < |p.workers| && p.workers[w].Fetching? ==> p.workers[w].chunk < |job.chunks|
  }

  /** A free worker leaves when the queue is empty; otherwise it takes a chunk and then looks for a cancellation. */
  function AfterTake(job: Job, p: Pool, w: nat): Pool
    requires WellFormed(job, p) && w < |p.workers|
  {
    if p.next == |job.chunks| then p.(workers := p.workers[w := Gone])
    else if p.cancelled then
      p.(status := p.status[p.next := Dropped], next := p.next + 1, workers := p.workers[w := Gone])
    else
      p.(status := p.status[p.next := InFlight(w)], next := p.next + 1, workers := p.workers[w := Fetching(p.next)])
  }

  /** A failing worker cancels the others and leaves. */
  function AfterAnswer(job: Job, p: Pool, w: nat, lucky: bool): Pool
    requires WellFormed(job, p) && w < |p.workers| && p.workers[w].Fetching?
  {
    var i := p.workers[w].chunk;
    if Acceptable(job.chunks[i], job.store) && (!p.cancelled || lucky) then
      p.(status := p.status[i := Fetched], workers := p.workers[w := Writing(job.Writes(i))],
         fetched := p.fetched + [i])
    else
      p.(status := p.status[i := Failed], workers := p.workers[w := Gone], cancelled := true)
  }

  function AfterWrite(p: Pool, w: nat): Pool
    requires w < |p.workers| && p.workers[w].Writing?
  {
    var rest := p.workers[w].rest;
    if rest == [] then p.(workers := p.workers[w := Free])
    else p.(workers := p.workers[w := Writing(rest[1..])], log := p.log + [rest[0]])
  }

  function AfterMove(job: Job, p: Pool, m: Move): Pool
    requires WellFormed(job, p)
  {
    if !CanMove(p, m) then p else
    match m
    case Cancel => p.(cancelled := true)
    case Take(w) => AfterTake(job, p, w)
    case Answer(w, lucky) => AfterAnswer(job, p, w, lucky)
    case WriteOne(w) => AfterWrite(p, w)
  }

  // ----- the account every run keeps -----

  ghost predicate Pending(workers: seq<Worker>, fw: FileWrite) {
    exists w :: 0 <= w < |workers| && workers[w].Writing? && fw in workers[w].rest
  }

  /** A write that belongs to a fetched chunk. */
  ghost predicate Due(job: Job, status: seq<Status>, fw: FileWrite)
    requires |status| == |job.chunks|
  {
    exists i :: 0 <= i < |status| && status[i].Fetched? && fw in job.Writes(i)
  }

  /** Exactly the chunks before `next` left the queue, and each in flight is with one worker. */
  ghost predicate QueueKept(job: Job, p: Pool) {
    && WellFormed(job, p)
    && (forall i :: 0 <= i < |p.status| ==> (p.status[i].Queued? <==> p.next <= i))
    && (forall i, w: nat :: 0 <= i < |p.status| && p.status[i] == InFlight(w) ==>
          w < |p.workers| && p.workers[w] == Fetching(i))
    && (forall w :: 0 <= w < |p.workers| && p.workers[w].Fetching? ==> p.status[p.workers[w].chunk] == InFlight(w))
  }

  /** Each fetched chunk was fetched once, and its writes are done or pending. */
  ghost predicate WritesKept(job: Job, p: Pool) {
    FetchedKept(job, p) && forall fw :: fw in p.log || Pending(p.workers, fw) <==> Due(job, p.status, fw)
  }

  ghost predicate FetchedKept(job: Job, p: Pool) {
    && |p.status| == |job.chunks|
    && (forall j :: 0 <= j < |p.fetched| ==> p.fetched[j] < |p.status| && p.status[p.fetched[j]].Fetched?)
    && (forall i :: 0 <= i < |p.status| && p.status[i].Fetched? ==> i in p.fetched)
    && (forall j, k :: 0 <= j < k < |p.fetched| ==> p.fetched[j] != p.fetched[k])
  }

  ghost predicate Erred(p: Pool) {
    exists i :: 0 <= i < |p.status| && p.status[i].Failed?
  }

  ghost predicate Stopped(p: Pool) {
    exists i :: 0 <= i < |p.status| && p.status[i].Dropped?
  }

  /** Why workers left: an empty queue, a cancellation, or an error, which cancels too. */
  ghost predicate ReasonsKept(job: Job, p: Pool, byCaller: bool) {
    && |p.status| == |job.chunks|
    && (forall i :: 0 <= i < |p.status| && p.status[i].Fetched? ==> Acceptable(job.chunks[i], job.store))
    && (forall w :: 0 <= w < |p.workers| && p.workers[w].Gone? ==> p.next == |job.chunks| || Stopped(p) || Erred(p))
    && (Stopped(p) ==> p.cancelled)
    && (Erred(p) ==> p.cancelled)
    && (p.cancelled ==> byCaller || Erred(p))
    && (Erred(p) && !byCaller ==> exists i :: 0 <= i < |p.status| && !Acceptable(job.chunks[i], job.store))
  }

  ghost predicate Account(job: Job, p: Pool, byCaller: bool) {
    QueueKept(job, p) && WritesKept(job, p) && ReasonsKept(job, p, byCaller)
  }

  lemma StartAccount(job: Job, workers: nat)
    ensures Account(job, Start(job, workers), false)
  {
  }

  lemma TakeKeepsQueue(job: Job, p: Pool, w: nat)
    requires QueueKept(job, p) && CanMove(p, Take(w))
    ensures QueueKept(job, AfterTake(job, p, w))
  {
  }

  lemma AnswerKeepsQueue(job: Job, p: Pool, w: nat, lucky: bool)
    requires QueueKept(job, p) && CanMove(p, Answer(w, lucky))
    ensures QueueKept(job, AfterAnswer(job, p, w, lucky))
  {
  }

  lemma WriteKeepsQueue(job: Job, p: Pool, w: nat)
    requires QueueKept(job, p) && CanMove(p, WriteOne(w))
    ensures QueueKept(job, AfterWrite(p, w))
  {
  }

  lemma TakeKeepsWrites(job: Job, p: Pool, w: nat)
    requires QueueKept(job, p) && WritesKept(job, p) && CanMove(p, Take(w))
    ensures WritesKept(job, AfterTake(job, p, w))
  {
    var q := AfterTake(job, p, w);
    assert forall i :: 0 <= i < |p.status| ==> (q.status[i].Fetched? <==> p.status[i].Fetched?);
    forall fw ensures Pending(q.workers, fw) <==> Pending(p.workers, fw) {
      if k :| 0 <= k < |p.workers| && p.workers[k].Writing? && fw in p.workers[k].rest {
        assert q.workers[k] == p.workers[k];
      }
    }
    forall fw ensures Due(job, q.status, fw) <==> Due(job, p.status, fw) {
      if i :| 0 <= i < |p.status| && p.status[i].Fetched? && fw in job.Writes(i) {
        assert q.status[i].Fetched?;
      }
    }
  }

  lemma AnswerKeepsFetched(job: Job, p: Pool, w: nat, lucky: bool)
    requires QueueKept(job, p) && FetchedKept(job, p) && CanMove(p, Answer(w, lucky))
    ensures FetchedKept(job, AfterAnswer(job, p, w, lucky))
  {
    var q, i := AfterAnswer(job, p, w, lucky), p.workers[w].chunk;
    assert i !in p.fetched;
    if q.status[i].Fetched? {
      assert q.fetched == p.fetched + [i];
      assert i in q.fetched;
    }
  }

  lemma AnswerKeepsWrites(job: Job, p: Pool, w: nat, lucky: bool)
    requires QueueKept(job, p) && WritesKept(job, p) && CanMove(p, Answer(w, lucky))
    ensures WritesKept(job, AfterAnswer(job, p, w, lucky))
  {
    var q, i := AfterAnswer(job, p, w, lucky), p.workers[w].chunk;
    var added := if q.status[i].Fetched? then job.Writes(i) else [];
    AnswerKeepsFetched(job, p, w, lucky);
    forall fw ensures Pending(q.workers, fw) <==> Pending(p.workers, fw) || fw in added {
      if k :| 0 <= k < |p.workers| && p.workers[k].Writing? && fw in p.workers[k].rest {
        assert q.workers[k] == p.workers[k];
      }
      if fw in added {
        assert q.workers[w].Writing?;
      }
    }
    forall fw ensures Due(job, q.status, fw) <==> Due(job, p.status, fw) || fw in added {
      if k :| 0 <= k < |p.status| && p.status[k].Fetched? && fw in job.Writes(k) {
        assert q.status[k].Fetched?;
      }
    }
  }

  lemma WriteKeepsWrites(job: Job, p: Pool, w: nat)
    requires WritesKept(job, p) && CanMove(p, WriteOne(w))
    ensures WritesKept(job, AfterWrite(p, w))
  {
    var q, rest := AfterWrite(p, w), p.workers[w].rest;
    assert rest != [] ==> rest == [rest[0]] + rest[1..];
    forall fw ensures fw in q.log || Pending(q.workers, fw) <==> fw in p.log || Pending(p.workers, fw) {
      if k :| 0 <= k < |p.workers| && p.workers[k].Writing? && fw in p.workers[k].rest {
        assert k != w ==> q.workers[k] == p.workers[k];
        assert k == w && fw != rest[0] ==> fw in q.workers[w].rest;
      }
      if k :| 0 <= k < |q.workers| && q.workers[k].Writing? && fw in q.workers[k].rest {
        assert p.workers[k].Writing? && fw in p.workers[k].rest;
      }
    }
  }

  lemma TakeKeepsReasons(job: Job, p: Pool, w: nat, byCaller: bool)
    requires QueueKept(job, p) && ReasonsKept(job, p, byCaller) && CanMove(p, Take(w))
    ensures ReasonsKept(job, AfterTake(job, p, w), byCaller)
  {
    var q := AfterTake(job, p, w);
    assert Erred(p) <==> Erred(q) by {
      assert forall i :: 0 <= i < |p.status| ==> (p.status[i].Failed? <==> q.status[i].Failed?);
    }
    if p.next < |job.chunks| && p.cancelled {
      assert q.status[p.next].Dropped?;
    } else {
      assert forall i :: 0 <= i < |p.status| ==> (p.status[i].Dropped? <==> q.status[i].Dropped?);
    }
  }

  lemma AnswerKeepsReasons(job: Job, p: Pool, w: nat, lucky: bool, byCaller: bool)
    requires QueueKept(job, p) && ReasonsKept(job, p, byCaller) && CanMove(p, Answer(w, lucky))
    ensures ReasonsKept(job, AfterAnswer(job, p, w, lucky), byCaller)
  {
    var q, i := AfterAnswer(job, p, w, lucky), p.workers[w].chunk;
    assert forall k :: 0 <= k < |p.status| ==> (p.status[k].Dropped? <==> q.status[k].Dropped?);
    assert forall k :: 0 <= k < |p.status| && k != i ==> (p.status[k].Failed? <==> q.status[k].Failed?);
    assert q.status[i].Failed? || (Erred(p) <==> Erred(q));
  }

  lemma MoveKeepsAccount(job: Job, p: Pool, m: Move, byCaller: bool)
    requires Account(job, p, byCaller)
    ensures Account(job, AfterMove(job, p, m), byCaller || m.Cancel?)
  {
    if CanMove(p, m) {
      match m {
        case Cancel =>
        case Take(w) =>
          TakeKeepsQueue(job, p, w);
          TakeKeepsWrites(job, p, w);
          TakeKeepsReasons(job, p, w, byCaller);
        case Answer(w, lucky) =>
          AnswerKeepsQueue(job, p, w, lucky);
          AnswerKeepsWrites(job, p, w, lucky);
          AnswerKeepsReasons(job, p, w, lucky, byCaller);
        case WriteOne(w) =>
          WriteKeepsQueue(job, p, w);
          WriteKeepsWrites(job, p, w);
      }
    }
  }

  // ----- every run -----

  ghost predicate Cancels(moves: seq<Move>) {
    Cancel in moves
  }

  /** A run from the start, move by move. */
  function Run(job: Job, workers: nat, moves: seq<Move>): (p: Pool)
    ensures WellFormed(job, p)
    decreases |moves|
  {
    if moves == [] then Start(job, workers)
    else
      var p := Run(job, workers, moves[..|moves| - 1]);
      AfterMove(job, p, moves[|moves| - 1])
  }

  lemma {:induction false} RunKeepsAccount(job: Job, workers: nat, moves: seq<Move>)
    ensures forall k :: 0 <= k <= |moves| ==> Account(job, Run(job, workers, moves[..k]), Cancels(moves[..k]))
    decreases |moves|
  {
    assert moves[..|moves|] == moves;
    if moves == [] {
      StartAccount(job, workers);
    } else {
      var front, last := moves[..|moves| - 1], moves[|moves| - 1];
      assert moves == front + [last] && front[..|front|] == front;
      RunKeepsAccount(job, workers, front);
      MoveKeepsAccount(job, Run(job, workers, front), last, Cancels(front));
      assert forall k :: 0 <= k < |moves| ==> moves[..k] == front[..k];
    }
  }

  ghost predicate Finished(p: Pool) {
    p.workers != [] && forall w :: 0 <= w < |p.workers| ==> p.workers[w].Gone?
  }

  /** All chunks are fetched and written. */
  ghost predicate Complete(p: Pool) {
    forall i :: 0 <= i < |p.status| ==> p.status[i].Fetched?
  }

  /**
   How a call ends, for every schedule. The writes made are those of the fetched chunks. A call
   without an error is complete exactly when no worker dropped a chunk, which only a
   cancellation by the caller brings about; without one it succeeds exactly if every chunk is good.
   */
  lemma CallOutcome(job: Job, p: Pool, byCaller: bool)
    requires Account(job, p, byCaller) && Finished(p)
    ensures forall fw :: fw in p.log <==> Due(job, p.status, fw)
    ensures !Erred(p) ==> (Complete(p) <==> !Stopped(p))
    ensures !byCaller ==> !Stopped(p) || Erred(p)
    ensures Failed in p.status ==> p.cancelled
    ensures !byCaller ==> (!Erred(p) <==> forall c :: c in job.chunks ==> Acceptable(c, job.store))
  {
    forall fw ensures !Pending(p.workers, fw) {}
    assert p.workers[0].Gone?;
    if !Erred(p) && !Stopped(p) {
      forall i | 0 <= i < |p.status| ensures p.status[i].Fetched? {
        forall w: nat ensures p.status[i] != InFlight(w) {
          assert w < |p.workers| ==> p.workers[w].Gone?;
        }
      }
      assert forall i :: 0 <= i < |p.status| ==> Acceptable(job.chunks[i], job.store);
    }
  }

  /**
   No data is accepted unverified: whatever the schedule and however the call ends, every fetched
   chunk has its size and, if it has one, its checksum, the weighted byte sum above the plain one.
   A call without an error has that for every chunk unless one was dropped.
   */
  lemma FetchedDataIsVerified(job: Job, p: Pool, byCaller: bool, i: nat)
    requires Account(job, p, byCaller) && Finished(p) && i < |job.chunks|
    requires p.status[i].Fetched? || (!Erred(p) && forall s :: s in p.status ==> !s.Dropped?)
    ensures var c := job.chunks[i];
            && c.id in job.store && |job.store[c.id]| % 0x1_0000_0000 == c.size
            && (c.checksum != 0 ==>
                  c.checksum == Adler.WeightedSum(job.store[c.id]) % 65521 * 65536 +
                                Adler.ByteSum(job.store[c.id]) % 65521)
  {
    CallOutcome(job, p, byCaller);
  }

  /** A call that nobody cancels reports an error exactly when some chunk's data is missing or fails its check. */
  lemma UncancelledCallFailsExactly(job: Job, p: Pool)
    requires Account(job, p, false) && Finished(p)
    ensures Failed in p.status <==>
            exists c :: c in job.chunks &&
              (c.id !in job.store || |job.store[c.id]| % 0x1_0000_0000 != c.size ||
               (c.checksum != 0 && c.checksum != Adler.WeightedSum(job.store[c.id]) % 65521 * 65536 +
                                                 Adler.ByteSum(job.store[c.id]) % 65521))
  {
    CallOutcome(job, p, false);
    assert Failed in p.status <==> Erred(p);
    if Erred(p) {
      var c :| c in job.chunks && !Acceptable(c, job.store);
    }
  }

  // ----- a cancelled call that reports success -----

  const CANCELLED := [Take(0), Answer(0, false), Cancel, WriteOne(0), WriteOne(0), Take(0)]

  /** Two good chunks and one worker; the caller cancels while the first one is being written. */
  lemma CancelledCallSucceeds(job: Job)
    requires |job.chunks| == 2 && Acceptable(job.chunks[0], job.store) && |job.Writes(0)| == 1
    ensures Run(job, 1, CANCELLED) == Pool([Fetched, Dropped], 2, [Gone], true, [0], job.Writes(0))
    ensures Finished(Run(job, 1, CANCELLED)) && !Erred(Run(job, 1, CANCELLED))
  {
    var ws := job.Writes(0);
    FirstFour(job);
    RunStep(job, 1, CANCELLED, 4);
    assert Run(job, 1, CANCELLED[..5]) == Pool([Fetched, Queued], 1, [Free], true, [0], ws);
    RunStep(job, 1, CANCELLED, 5);
    assert CANCELLED[..6] == CANCELLED;
  }

  lemma FirstFour(job: Job)
    requires |job.chunks| == 2 && Acceptable(job.chunks[0], job.store) && |job.Writes(0)| == 1
    ensures Run(job, 1, CANCELLED[..4]) == Pool([Fetched, Queued], 1, [Writing([])], true, [0], job.Writes(0))
  {
    var ws := job.Writes(0);
    FirstThree(job);
    RunStep(job, 1, CANCELLED, 3);
    assert ws[1..] == [] && [] + [ws[0]] == ws;
  }

  lemma FirstThree(job: Job)
    requires |job.chunks| == 2 && Acceptable(job.chunks[0], job.store)
    ensures Run(job, 1, CANCELLED[..3]) == Pool([Fetched, Queued], 1, [Writing(job.Writes(0))], true, [0], [])
  {
    assert Run(job, 1, []) == Pool([Queued, Queued], 0, [Free], false, [], []);
    assert CANCELLED[..0] == [];
    RunStep(job, 1, CANCELLED, 0);
    assert Run(job, 1, CANCELLED[..1]) == Pool([InFlight(0), Queued], 1, [Fetching(0)], false, [], []);
    RunStep(job, 1, CANCELLED, 1);
    RunStep(job, 1, CANCELLED, 2);
  }

  lemma RunStep(job: Job, workers: nat, moves: seq<Move>, k: nat)
    requires k < |moves|
    ensures Run(job, workers, moves[..k + 1]) == AfterMove(job, Run(job, workers, moves[..k]), moves[k])
  {
    assert moves[..k + 1][..k] == moves[..k];
  }
}
