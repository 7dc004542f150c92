/** The registry of worker connections: which are live, which were closed, and how often. */
module WorkerRegistry {
  import opened Common

  type NodeId = string

  /** A worker handle; only some can be closed. */
  datatype Conn = Conn(id: nat, closable: bool)

  datatype Status = Online | Offline

  datatype Info = Info(status: Status, lastSeen: int, token: string)

  datatype Worker = Worker(conn: Option<Conn>, info: Info)

  /** Calls that concern a node's connection, as they happened. */
  datatype Event =
    | Registered(node: NodeId, conn: Conn)
    | Cleared(node: NodeId)
    | WentOffline(node: NodeId)
    | Unregistered(node: NodeId)
    | Heartbeat(node: NodeId)

  /** The connection a node has after its latest connection-changing event. */
  function Current(h: seq<Event>, n: NodeId): Option<Conn>
    decreases |h|
  {
    if h == [] then None
    else
      var last := h[|h| - 1];
      if last.node != n || last.Heartbeat? then Current(h[..|h| - 1], n)
      else if last.Registered? then Some(last.conn) else None
  }

  function Conns(h: seq<Event>): set<Conn> {
    set e | e in h && e.Registered? :: e.conn
  }

  lemma HistoryGrows(h: seq<Event>, e: Event)
    ensures forall n :: Current(h + [e], n) == if e.node != n || e.Heartbeat? then Current(h, n)
                                               else if e.Registered? then Some(e.conn) else None
    ensures Conns(h + [e]) == Conns(h) + if e.Registered? then {e.conn} else {}
  {
    assert (h + [e])[..|h|] == h;
  }

  function LiveConn(workers: map<NodeId, Worker>, n: NodeId): Option<Conn> {
    if n in workers then workers[n].conn else None
  }

  /** The closed connections once the node's current one is closed too. */
  function Closing(workers: map<NodeId, Worker>, closed: seq<Conn>, n: NodeId): seq<Conn> {
    match LiveConn(workers, n)
    case Some(c) => if c.closable then closed + [c] else closed
    case None => closed
  }

  ghost predicate Held(workers: map<NodeId, Worker>, c: Conn) {
    exists n :: LiveConn(workers, n) == Some(c)
  }

  /** Current on one node or closed, never both, never twice. */
  ghost predicate Accounted(workers: map<NodeId, Worker>, closed: seq<Conn>, c: Conn) {
    && (forall m, n :: LiveConn(workers, m) == Some(c) && LiveConn(workers, n) == Some(c) ==> m == n)
    && multiset(closed)[c] == if c.closable && !Held(workers, c) then 1 else 0
  }

  ghost predicate Consistent(workers: map<NodeId, Worker>, closed: seq<Conn>, h: seq<Event>) {
    && (forall n :: LiveConn(workers, n) == Current(h, n))
    && (forall n :: n in workers && workers[n].conn.Some? ==> workers[n].info.status == Online)
    && (forall c :: c in Conns(h) ==> Accounted(workers, closed, c))
    && (forall c :: c !in Conns(h) ==> !Held(workers, c) && multiset(closed)[c] == 0)
  }

  /** Taking the connection away from a node and closing it keeps the account. */
  lemma Detached(workers: map<NodeId, Worker>, workers': map<NodeId, Worker>, closed: seq<Conn>, h: seq<Event>,
                 n: NodeId)
    requires Consistent(workers, closed, h)
    requires LiveConn(workers', n) == None && forall m :: m != n ==> LiveConn(workers', m) == LiveConn(workers, m)
    ensures
      var closed' := Closing(workers, closed, n);
      && (forall d :: d in Conns(h) ==> Accounted(workers', closed', d))
      && (forall d :: d !in Conns(h) ==> !Held(workers', d) && multiset(closed')[d] == 0)
  {
    var c, closed' := LiveConn(workers, n), Closing(workers, closed, n);
    forall d
      ensures d in Conns(h) ==> Accounted(workers', closed', d)
      ensures d !in Conns(h) ==> !Held(workers', d) && multiset(closed')[d] == 0
    {
      assert multiset(closed')[d] == multiset(closed)[d] + if c == Some(d) && d.closable then 1 else 0;
      if c == Some(d) {
        assert Held(workers, d) && !Held(workers', d);
      } else if m :| LiveConn(workers, m) == Some(d) {
        assert LiveConn(workers', m) == Some(d);
      }
    }
  }

  /** A connection never seen before, given to a node that has none, keeps the account. */
  lemma Attached(workers: map<NodeId, Worker>, workers': map<NodeId, Worker>, closed: seq<Conn>, h: seq<Event>,
                 n: NodeId, c: Conn)
    requires LiveConn(workers, n) == None && c !in Conns(h)
    requires forall d :: d in Conns(h) ==> Accounted(workers, closed, d)
    requires forall d :: d !in Conns(h) ==> !Held(workers, d) && multiset(closed)[d] == 0
    requires LiveConn(workers', n) == Some(c) && forall m :: m != n ==> LiveConn(workers', m) == LiveConn(workers, m)
    ensures forall d :: d in Conns(h) + {c} ==> Accounted(workers', closed, d)
    ensures forall d :: d !in Conns(h) + {c} ==> !Held(workers', d) && multiset(closed)[d] == 0
  {
    forall d
      ensures d in Conns(h) + {c} ==> Accounted(workers', closed, d)
      ensures d !in Conns(h) + {c} ==> !Held(workers', d) && multiset(closed)[d] == 0
    {
      if d == c {
        assert !Held(workers, c) && Held(workers', c);
        forall m | LiveConn(workers', m) == Some(c) ensures m == n {
          assert m != n ==> LiveConn(workers, m) == Some(c);
        }
      } else {
        assert forall m :: LiveConn(workers', m) == Some(d) <==> LiveConn(workers, m) == Some(d);
        assert Held(workers', d) <==> Held(workers, d);
      }
    }
  }

  // ----- the registry as a state machine -----

  /** `stale` is what a reaper's scan found and has not set offline yet. */
  datatype State = State(workers: map<NodeId, Worker>, closed: seq<Conn>, history: seq<Event>, stale: set<NodeId>)

  datatype Call =
    | DoRegister(node: NodeId, conn: Conn, now: int, token: string)
    | DoClear(node: NodeId)
    | DoOffline(node: NodeId)
    | DoUnregister(node: NodeId)
    | DoHeartbeat(node: NodeId, now: int)
    | DoReapScan(timeout: int, now: int)
    | DoReapNext(node: NodeId)

  function Loaded(nodes: seq<NodeId>): map<NodeId, Worker> {
    map n | n in nodes :: Worker(None, Info(Offline, 0, ""))
  }

  function Silent(workers: map<NodeId, Worker>, timeout: int, now: int): set<NodeId> {
    set n | n in workers && workers[n].conn.Some? && now - workers[n].info.lastSeen > timeout
  }

  function AfterRegister(s: State, n: NodeId, c: Conn, now: int, token: string): State {
    s.(workers := s.workers[n := Worker(Some(c), Info(Online, now, token))],
       closed := Closing(s.workers, s.closed, n), history := s.history + [Registered(n, c)])
  }

  function AfterClear(s: State, n: NodeId): State {
    s.(workers := if n in s.workers then s.workers[n := s.workers[n].(conn := None)] else s.workers,
       closed := Closing(s.workers, s.closed, n), history := s.history + [Cleared(n)])
  }

  function AfterOffline(s: State, n: NodeId): State {
    s.(workers := if n in s.workers then s.workers[n := Worker(None, s.workers[n].info.(status := Offline))]
                  else s.workers,
       closed := Closing(s.workers, s.closed, n), history := s.history + [WentOffline(n)])
  }

  function AfterUnregister(s: State, n: NodeId): State {
    s.(workers := s.workers - {n}, closed := Closing(s.workers, s.closed, n), history := s.history + [Unregistered(n)])
  }

  /** A heartbeat refreshes a connected worker only; the registration's token stays. */
  function AfterHeartbeat(s: State, n: NodeId, now: int): State {
    s.(workers := if LiveConn(s.workers, n).Some?
                  then s.workers[n := s.workers[n].(info := Info(Online, now, s.workers[n].info.token))] else s.workers,
       history := s.history + [Heartbeat(n)])
  }

  function After(s: State, call: Call): State {
    match call
    case DoRegister(n, c, now, token) => AfterRegister(s, n, c, now, token)
    case DoClear(n) => AfterClear(s, n)
    case DoOffline(n) => AfterOffline(s, n)
    case DoUnregister(n) => AfterUnregister(s, n)
    case DoHeartbeat(n, now) => AfterHeartbeat(s, n, now)
    case DoReapScan(timeout, now) => s.(stale := Silent(s.workers, timeout, now))
    case DoReapNext(n) => if n in s.stale then AfterOffline(s, n).(stale := s.stale - {n}) else s
  }

  function RunCalls(s: State, calls: seq<Call>): State
    decreases |calls|
  {
    if calls == [] then s else After(RunCalls(s, calls[..|calls| - 1]), calls[|calls| - 1])
  }

  ghost predicate Good(s: State) {
    Consistent(s.workers, s.closed, s.history)
  }

  lemma RegisterIsGood(s: State, n: NodeId, c: Conn, now: int, token: string)
    requires Good(s) && c !in Conns(s.history)
    ensures Good(AfterRegister(s, n, c, now, token))
  {
    var gone, after := s.workers - {n}, AfterRegister(s, n, c, now, token);
    Detached(s.workers, gone, s.closed, s.history, n);
    HistoryGrows(s.history, Registered(n, c));
    Attached(gone, after.workers, after.closed, s.history, n, c);
  }

  /** The calls that take a node's connection away, closing it. */
  lemma DetachingIsGood(s: State, s': State, n: NodeId, e: Event)
    requires Good(s) && e in {Cleared(n), WentOffline(n), Unregistered(n)}
    requires s'.closed == Closing(s.workers, s.closed, n) && s'.history == s.history + [e]
    requires LiveConn(s'.workers, n) == None
    requires forall m :: m != n ==>
               (m in s'.workers <==> m in s.workers) && (m in s.workers ==> s'.workers[m] == s.workers[m])
    ensures Good(s')
  {
    assert forall m :: m != n ==> LiveConn(s'.workers, m) == LiveConn(s.workers, m);
    Detached(s.workers, s'.workers, s.closed, s.history, n);
    HistoryGrows(s.history, e);
  }

  lemma HeartbeatIsGood(s: State, n: NodeId, now: int)
    requires Good(s)
    ensures Good(AfterHeartbeat(s, n, now))
  {
    var after := AfterHeartbeat(s, n, now);
    HistoryGrows(s.history, Heartbeat(n));
    assert forall m :: LiveConn(after.workers, m) == LiveConn(s.workers, m);
    assert forall c :: Held(after.workers, c) == Held(s.workers, c);
  }

  lemma OfflineIsGood(s: State, n: NodeId)
    requires Good(s)
    ensures Good(AfterOffline(s, n))
  {
    DetachingIsGood(s, AfterOffline(s, n), n, WentOffline(n));
  }

  lemma AfterIsGood(s: State, call: Call)
    requires Good(s) && (call.DoRegister? ==> call.conn !in Conns(s.history))
    ensures Good(After(s, call))
    ensures Conns(After(s, call).history) == Conns(s.history) + if call.DoRegister? then {call.conn} else {}
  {
    forall e { HistoryGrows(s.history, e); }
    match call {
      case DoRegister(n, c, now, token) => RegisterIsGood(s, n, c, now, token);
      case DoClear(n) => DetachingIsGood(s, AfterClear(s, n), n, Cleared(n));
      case DoOffline(n) => OfflineIsGood(s, n);
      case DoUnregister(n) => DetachingIsGood(s, AfterUnregister(s, n), n, Unregistered(n));
      case DoHeartbeat(n, now) => HeartbeatIsGood(s, n, now);
      case DoReapScan(_, _) =>
      case DoReapNext(n) => OfflineIsGood(s, n);
    }
  }

  ghost predicate DistinctConns(calls: seq<Call>) {
    forall i, j :: 0 <= i < j < |calls| && calls[i].DoRegister? && calls[j].DoRegister? ==>
      calls[i].conn != calls[j].conn
  }

  function ConnsOf(calls: seq<Call>): set<Conn> {
    set call | call in calls && call.DoRegister? :: call.conn
  }

  lemma LastIsNew(front: seq<Call>, last: Call)
    requires DistinctConns(front + [last])
    ensures DistinctConns(front) && (last.DoRegister? ==> last.conn !in ConnsOf(front))
    ensures ConnsOf(front + [last]) == ConnsOf(front) + if last.DoRegister? then {last.conn} else {}
  {
    var calls := front + [last];
    assert forall i :: 0 <= i < |front| ==> calls[i] == front[i];
    assert calls[|front|] == last;
  }

  /**
   Throughout any run that starts from the database and registers distinct connections: a node
   has the connection of its latest connection-changing event, a live connection means online,
   and every registered connection is current on exactly one node or was closed exactly once.
   Anything may come between a reaper's scan and its SetOffline calls.
   */
  lemma {:induction false} RunIsGood(nodes: seq<NodeId>, calls: seq<Call>)
    requires DistinctConns(calls)
    ensures forall k :: 0 <= k <= |calls| ==> Good(RunCalls(State(Loaded(nodes), [], [], {}), calls[..k]))
    ensures Conns(RunCalls(State(Loaded(nodes), [], [], {}), calls).history) == ConnsOf(calls)
    decreases |calls|
  {
    assert calls[..|calls|] == calls;
    if calls != [] {
      var front, last := calls[..|calls| - 1], calls[|calls| - 1];
      RunIsGood(nodes, front);
      var s := RunCalls(State(Loaded(nodes), [], [], {}), front);
      assert calls == front + [last] && front[..|front|] == front;
      LastIsNew(front, last);
      AfterIsGood(s, last);
      assert forall k :: 0 <= k < |calls| ==> calls[..k] == front[..k];
    }
  }

  // ----- the reaper among other calls -----

  /** The nodes the reaper's calls set offline, in order. */
  function Reaped(calls: seq<Call>): seq<NodeId>
    decreases |calls|
  {
    if calls == [] then []
    else Reaped(calls[..|calls| - 1]) +
         if calls[|calls| - 1].DoReapNext? then [calls[|calls| - 1].node] else []
  }

  /** The calls of others. */
  function Between(calls: seq<Call>): seq<Call>
    decreases |calls|
  {
    if calls == [] then []
    else Between(calls[..|calls| - 1]) +
         if calls[|calls| - 1].DoReapNext? then [] else [calls[|calls| - 1]]
  }

  predicate Distinct(ns: seq<NodeId>) {
    forall i, j :: 0 <= i < j < |ns| ==> ns[i] != ns[j]
  }

  /** One more call at the end of a reaper's calls. */
  ghost function Grown(calls: seq<Call>, call: Call): (r: seq<Call>)
    requires calls != []
    ensures r != [] && r[0] == calls[0] && r[..|r| - 1] == calls && r[|r| - 1] == call
    ensures Between(r[1..]) == Between(calls[1..]) + if call.DoReapNext? then [] else [call]
    ensures Reaped(r) == Reaped(calls) + if call.DoReapNext? then [call.node] else []
  {
    assert (calls + [call])[1..][..|calls| - 1] == calls[1..];
    calls + [call]
  }

  lemma OneMoreCall(others: seq<Call>, k: nat)
    requires k < |others| && DistinctConns(others)
    ensures others[..k + 1] == others[..k] + [others[k]]
    ensures others[k].DoRegister? ==> others[k].conn !in ConnsOf(others[..k])
    ensures ConnsOf(others[..k + 1]) == ConnsOf(others[..k]) + if others[k].DoRegister? then {others[k].conn} else {}
    ensures ConnsOf(others[..k + 1]) <= ConnsOf(others)
    ensures others[k].DoRegister? ==> others[k].conn in ConnsOf(others)
  {
    assert others[..k + 1] == others[..k] + [others[k]];
    LastIsNew(others[..k], others[k]);
  }

  /** A call about one node leaves the connections of the others alone. */
  lemma OnlyItsNode(s: State, call: Call)
    requires !call.DoReapScan?
    ensures forall m :: m != call.node ==> LiveConn(After(s, call).workers, m) == LiveConn(s.workers, m)
    ensures call.DoReapNext? && call.node in s.stale ==> LiveConn(After(s, call).workers, call.node) == None
  {
  }

  /** None of the calls is about the node. */
  predicate Untouched(calls: seq<Call>, n: NodeId) {
    forall c :: c in calls ==> c.DoReapScan? || c.node != n
  }

  /** What the reaper has done: `all` were stale at the scan, `stale` are left, `done` came in between. */
  ghost predicate ReapTrace(all: set<NodeId>, stale: set<NodeId>, scan: Call, done: seq<Call>, calls: seq<Call>) {
    && stale <= all && calls != [] && calls[0] == scan && Between(calls[1..]) == done
    && Distinct(Reaped(calls)) && forall n :: n in Reaped(calls) <==> n in all - stale
  }

  ghost predicate ReapState(start: State, done: seq<Call>, calls: seq<Call>, s: State) {
    Good(s) && s == RunCalls(start, calls) && Conns(s.history) == Conns(start.history) + ConnsOf(done)
  }

  /** The connections of nodes that no other call is about. */
  ghost predicate ReapConns(start: State, all: set<NodeId>, done: seq<Call>, s: State) {
    forall n :: Untouched(done, n) ==>
      LiveConn(s.workers, n) == if n in all - s.stale then None else LiveConn(start.workers, n)
  }

  /** How far the reaper has come. */
  ghost predicate Reaping(start: State, timeout: int, now: int, done: seq<Call>, calls: seq<Call>, s: State) {
    var all := Silent(start.workers, timeout, now);
    && ReapTrace(all, s.stale, DoReapScan(timeout, now), done, calls)
    && ReapState(start, done, calls, s) && ReapConns(start, all, done, s)
  }

  lemma TraceWaits(all: set<NodeId>, stale: set<NodeId>, scan: Call, done: seq<Call>, calls: seq<Call>, call: Call)
    requires ReapTrace(all, stale, scan, done, calls) && !call.DoReapNext?
    ensures ReapTrace(all, stale, scan, done + [call], Grown(calls, call))
  {
  }

  lemma TraceGoesOn(all: set<NodeId>, stale: set<NodeId>, scan: Call, done: seq<Call>, calls: seq<Call>, n: NodeId)
    requires ReapTrace(all, stale, scan, done, calls) && n in stale
    ensures ReapTrace(all, stale - {n}, scan, done, Grown(calls, DoReapNext(n)))
  {
    var r := Grown(calls, DoReapNext(n));
    assert Reaped(r) == Reaped(calls) + [n] && n !in Reaped(calls);
  }

  lemma OneMoreConn(done: seq<Call>, call: Call)
    ensures ConnsOf(done + [call]) == ConnsOf(done) + if call.DoRegister? then {call.conn} else {}
  {
    assert forall c :: c in done + [call] <==> c in done || c == call;
  }

  lemma StateGrows(start: State, done: seq<Call>, calls: seq<Call>, s: State, call: Call)
    requires ReapState(start, done, calls, s) && calls != []
    requires call.DoRegister? ==> call.conn !in Conns(s.history)
    ensures ReapState(start, if call.DoReapNext? then done else done + [call], Grown(calls, call), After(s, call))
  {
    AfterIsGood(s, call);
    OneMoreConn(done, call);
  }

  lemma ConnsWait(start: State, all: set<NodeId>, done: seq<Call>, s: State, call: Call)
    requires ReapConns(start, all, done, s) && !call.DoReapScan? && !call.DoReapNext?
    ensures After(s, call).stale == s.stale && ReapConns(start, all, done + [call], After(s, call))
  {
    OnlyItsNode(s, call);
    forall n ensures Untouched(done + [call], n) ==> Untouched(done, n) && call.node != n {
      assert call in done + [call] && forall c :: c in done ==> c in done + [call];
    }
  }

  lemma ConnsGoOn(start: State, all: set<NodeId>, done: seq<Call>, s: State, n: NodeId)
    requires ReapConns(start, all, done, s) && n in s.stale && n in all
    ensures After(s, DoReapNext(n)).stale == s.stale - {n} && ReapConns(start, all, done, After(s, DoReapNext(n)))
  {
    OnlyItsNode(s, DoReapNext(n));
  }

  lemma ReapStarts(start: State, timeout: int, now: int)
    requires Good(start)
    ensures Reaping(start, timeout, now, [], [DoReapScan(timeout, now)],
                    start.(stale := Silent(start.workers, timeout, now)))
  {
    var calls := [DoReapScan(timeout, now)];
    assert calls[..0] == [] && calls[1..] == [] && RunCalls(start, []) == start;
  }

  lemma ReapWaits(start: State, timeout: int, now: int, done: seq<Call>, calls: seq<Call>, s: State, call: Call)
    requires Reaping(start, timeout, now, done, calls, s) && !call.DoReapScan? && !call.DoReapNext?
    requires call.DoRegister? ==> call.conn !in Conns(s.history)
    ensures Reaping(start, timeout, now, done + [call], Grown(calls, call), After(s, call))
    ensures After(s, call).stale == s.stale
  {
    var all := Silent(start.workers, timeout, now);
    TraceWaits(all, s.stale, DoReapScan(timeout, now), done, calls, call);
    StateGrows(start, done, calls, s, call);
    ConnsWait(start, all, done, s, call);
  }

  lemma ReapGoesOn(start: State, timeout: int, now: int, done: seq<Call>, calls: seq<Call>, s: State, n: NodeId)
    requires Reaping(start, timeout, now, done, calls, s) && n in s.stale
    ensures Reaping(start, timeout, now, done, Grown(calls, DoReapNext(n)), After(s, DoReapNext(n)))
    ensures After(s, DoReapNext(n)).stale == s.stale - {n}
  {
    var all := Silent(start.workers, timeout, now);
    TraceGoesOn(all, s.stale, DoReapScan(timeout, now), done, calls, n);
    StateGrows(start, done, calls, s, DoReapNext(n));
    ConnsGoOn(start, all, done, s, n);
  }

  /** The next call of the others registers a connection nobody has. */
  lemma NextIsNew(start: State, others: seq<Call>, k: nat, s: State)
    requires k < |others| && DistinctConns(others) && ConnsOf(others) !! Conns(start.history)
    requires Conns(s.history) == Conns(start.history) + ConnsOf(others[..k])
    ensures others[..k + 1] == others[..k] + [others[k]]
    ensures others[k].DoRegister? ==> others[k].conn !in Conns(s.history)
  {
    OneMoreCall(others, k);
  }

  /** What holds when the reaper is done. */
  ghost predicate ReapDone(start: State, timeout: int, now: int, others: seq<Call>, calls: seq<Call>, s: State) {
    && Good(s) && s == RunCalls(start, calls)
    && calls != [] && calls[0] == DoReapScan(timeout, now) && Between(calls[1..]) <= others
    && Distinct(Reaped(calls)) && (forall n :: n in Reaped(calls) <==> n in Silent(start.workers, timeout, now))
    && (forall n :: Untouched(others, n) ==>
          LiveConn(s.workers, n) ==
          if n in Silent(start.workers, timeout, now) then None else LiveConn(start.workers, n))
  }

  lemma ReapEnds(start: State, timeout: int, now: int, others: seq<Call>, k: nat, calls: seq<Call>, s: State)
    requires k <= |others| && Reaping(start, timeout, now, others[..k], calls, s) && s.stale == {}
    ensures ReapDone(start, timeout, now, others, calls, s)
  {
    forall n ensures Untouched(others, n) ==> Untouched(others[..k], n) {}
  }

  /** A connected node that nobody else is about is set offline exactly when it has not been heard of for too long. */
  lemma ReapedByLastSeen(start: State, timeout: int, now: int, others: seq<Call>, calls: seq<Call>, s: State, n: NodeId)
    requires ReapDone(start, timeout, now, others, calls, s) && Untouched(others, n)
    requires n in start.workers && start.workers[n].conn.Some?
    ensures start.workers[n].info.lastSeen + timeout < now ==> LiveConn(s.workers, n) == None
    ensures now <= start.workers[n].info.lastSeen + timeout ==> LiveConn(s.workers, n) == start.workers[n].conn
  {
  }

  /** A heartbeat or a registration at `t` keeps a worker for as long as the timeout, and no longer. */
  lemma {:induction false} HeardOfIsKept(before: State, call: Call, t: int, timeout: int, now: int, others: seq<Call>,
                                         calls: seq<Call>, s: State)
    requires match call
             case DoHeartbeat(n, at) => at == t && LiveConn(before.workers, n).Some?
             case DoRegister(_, _, at, _) => at == t
             case _ => false
    requires ReapDone(After(before, call), timeout, now, others, calls, s) && Untouched(others, call.node)
    ensures LiveConn(s.workers, call.node) ==
            if now > t + timeout then None
            else if call.DoRegister? then Some(call.conn) else LiveConn(before.workers, call.node)
  {
    ReapedByLastSeen(After(before, call), timeout, now, others, calls, s, call.node);
  }

  /** A worker that registers between the scan and its SetOffline loses the new connection and stays offline. */
  lemma NewConnectionIsReaped(s: State, n: NodeId, c: Conn, now: int, token: string)
    requires Good(s) && n in s.stale && c !in Conns(s.history)
    ensures
      var after := After(After(s, DoRegister(n, c, now, token)), DoReapNext(n));
      && Good(after) && LiveConn(after.workers, n) == None && after.workers[n].info.status == Offline
      && multiset(after.closed)[c] == if c.closable then 1 else 0
  {
    var registered := After(s, DoRegister(n, c, now, token));
    AfterIsGood(s, DoRegister(n, c, now, token));
    AfterIsGood(registered, DoReapNext(n));
    var after := After(registered, DoReapNext(n));
    assert c in Conns(after.history) && Accounted(after.workers, after.closed, c);
    assert LiveConn(registered.workers, n) == Some(c);
  }

  class Registry {
    var workers: map<NodeId, Worker>
    /** Connections in the order their Close was called. */
    var closed: seq<Conn>
    ghost var history: seq<Event>

    ghost function Snap(stale: set<NodeId>): State
      reads this
    {
      State(workers, closed, history, stale)
    }

    ghost predicate Valid()
      reads this
    {
      Consistent(workers, closed, history)
    }

    constructor ()
      ensures Valid() && workers == map[] && closed == [] && history == []
    {
      workers, closed, history := map[], [], [];
    }

    /** At startup every known worker is offline, whatever it was when the controller stopped. */
    method LoadFromDb(nodes: seq<NodeId>)
      modifies this
      ensures workers == old(workers) + Loaded(nodes) && history == old(history) && closed == old(closed)
      ensures forall n :: n in nodes ==> n in workers && workers[n].conn == None && workers[n].info.status == Offline
      ensures forall n :: n in old(workers) && n !in nodes ==> n in workers && workers[n] == old(workers)[n]
    {
      for i := 0 to |nodes|
        invariant history == old(history) && closed == old(closed)
        invariant workers == old(workers) + Loaded(nodes[..i])
      {
        assert nodes[..i + 1] == nodes[..i] + [nodes[i]];
        workers := workers[nodes[i] := Worker(None, Info(Offline, 0, ""))];
      }
      assert nodes[..|nodes|] == nodes;
    }

    method CloseIfLive(n: NodeId)
      modifies this`closed
      ensures closed == Closing(workers, old(closed), n)
    {
      if n in workers && workers[n].conn.Some? && workers[n].conn.value.closable {
        closed := closed + [workers[n].conn.value];
      }
    }

    /** A new connection; the node's previous one is closed. */
    method Register(n: NodeId, c: Conn, now: int, token: string)
      modifies this
      ensures forall stale :: Snap(stale) == AfterRegister(old(Snap(stale)), n, c, now, token)
      ensures workers == old(workers)[n := Worker(Some(c), Info(Online, now, token))]
      ensures old(Valid()) && c !in Conns(old(history)) ==> Valid()
    {
      if Valid() && c !in Conns(history) {
        RegisterIsGood(Snap({}), n, c, now, token);
      }
      CloseIfLive(n);
      workers := workers[n := Worker(Some(c), Info(Online, now, token))];
      history := history + [Registered(n, c)];
    }

    /** Drop the connection, keep entry and status. */
    method ClearWorker(n: NodeId)
      modifies this
      ensures forall stale :: Snap(stale) == AfterClear(old(Snap(stale)), n)
      ensures workers ==
              if n in old(workers) then old(workers)[n := Worker(None, old(workers)[n].info)] else old(workers)
      ensures old(Valid()) ==> Valid()
    {
      if Valid() {
        DetachingIsGood(Snap({}), AfterClear(Snap({}), n), n, Cleared(n));
      }
      CloseIfLive(n);
      if n in workers {
        workers := workers[n := workers[n].(conn := None)];
      }
      history := history + [Cleared(n)];
    }

    /** Drop the connection, keep the entry as offline. */
    method SetOffline(n: NodeId)
      modifies this
      ensures forall stale :: Snap(stale) == AfterOffline(old(Snap(stale)), n)
      ensures n in old(workers) ==> n in workers && workers[n].conn == None && workers[n].info.status == Offline
      ensures workers - {n} == old(workers) - {n}
      ensures old(Valid()) ==> Valid()
    {
      if Valid() {
        OfflineIsGood(Snap({}), n);
      }
      CloseIfLive(n);
      if n in workers {
        workers := workers[n := Worker(None, workers[n].info.(status := Offline))];
      }
      history := history + [WentOffline(n)];
    }

    method Unregister(n: NodeId)
      modifies this
      ensures forall stale :: Snap(stale) == AfterUnregister(old(Snap(stale)), n)
      ensures workers == old(workers) - {n}
      ensures old(Valid()) ==> Valid()
    {
      if Valid() {
        DetachingIsGood(Snap({}), AfterUnregister(Snap({}), n), n, Unregistered(n));
      }
      CloseIfLive(n);
      workers := workers - {n};
      history := history + [Unregistered(n)];
    }

    method UpdateHeartbeat(n: NodeId, now: int) returns (ok: bool)
      modifies this
      ensures ok <==> old(LiveConn(workers, n)).Some?
      ensures forall stale :: Snap(stale) == AfterHeartbeat(old(Snap(stale)), n, now)
      ensures workers == if !ok then old(workers) else
                old(workers)[n := Worker(old(workers)[n].conn, Info(Online, now, old(workers)[n].info.token))]
      ensures old(Valid()) ==> Valid()
    {
      if Valid() {
        HeartbeatIsGood(Snap({}), n, now);
      }
      ok := n in workers && workers[n].conn.Some?;
      if ok {
        workers := workers[n := workers[n].(info := Info(Online, now, workers[n].info.token))];
      }
      history := history + [Heartbeat(n)];
    }

    /** Succeeds exactly when the node's latest connection-changing event is a registration. */
    method Get(n: NodeId) returns (c: Option<Conn>)
      requires Valid()
      ensures c == Current(history, n)
      ensures c.Some? ==> n in workers && workers[n].info.status == Online
    {
      if n !in workers || workers[n].conn.None? {
        return None;
      }
      return workers[n].conn;
    }

    method ListOnlineWorkers() returns (online: set<NodeId>)
      requires Valid()
      ensures forall n :: n in online <==> Current(history, n).Some?
      ensures forall n :: n in online ==> workers[n].info.status == Online
    {
      online := set n | n in workers && workers[n].conn.Some?;
      forall n ensures n in online <==> Current(history, n).Some? {
        assert LiveConn(workers, n) == Current(history, n);
      }
    }

    /** The reaper's scan: connected workers not heard of for longer than the timeout. */
    method StaleWorkers(timeout: int, now: int) returns (stale: set<NodeId>)
      ensures stale == Silent(workers, timeout, now)
      ensures forall n :: n in stale <==>
                n in workers && workers[n].conn.Some? && now - workers[n].info.lastSeen > timeout
    {
      stale := {};
      var todo := workers.Keys;
      while todo != {}
        invariant todo <= workers.Keys
        invariant stale == Silent(workers, timeout, now) - todo
      {
        var n :| n in todo;
        if workers[n].conn.Some? && now - workers[n].info.lastSeen > timeout {
          stale := stale + {n};
        }
        todo := todo - {n};
      }
    }

    /**
     The reaper: a scan and then one SetOffline for each stale worker, with the calls `others`
     coming anywhere in between. `calls` is what happened.
     */
    method ReapStale(timeout: int, now: int, others: seq<Call>) returns (ghost calls: seq<Call>)
      requires Valid() && DistinctConns(others) && ConnsOf(others) !! Conns(history)
      requires forall c :: c in others ==> !c.DoReapScan? && !c.DoReapNext?
      modifies this
      ensures ReapDone(old(Snap({})), timeout, now, others, calls, Snap({}))
    {
      var stale := StaleWorkers(timeout, now);
      var done := 0;
      ghost var start := Snap({});
      calls := [DoReapScan(timeout, now)];
      ReapStarts(start, timeout, now);
      while stale != {}
        invariant done <= |others| && Reaping(start, timeout, now, others[..done], calls, Snap(stale))
        decreases |stale|, |others| - done
      {
        var waits: bool := *;
        if waits && done < |others| {
          NextIsNew(start, others, done, Snap(stale));
          ReapWaits(start, timeout, now, others[..done], calls, Snap(stale), others[done]);
          calls := Grown(calls, others[done]);
          stale := Perform(others[done], stale);
          done := done + 1;
        } else {
          var n :| n in stale;
          ReapGoesOn(start, timeout, now, others[..done], calls, Snap(stale), n);
          calls := Grown(calls, DoReapNext(n));
          stale := Perform(DoReapNext(n), stale);
        }
      }
      ReapEnds(start, timeout, now, others, done, calls, Snap(stale));
    }

    /**
     Startup and then any sequence of calls, the reaper's scan and each of its SetOffline
     calls being steps of their own.
     */
    method Run(nodes: seq<NodeId>, calls: seq<Call>)
      requires workers == map[] && closed == [] && history == []
      modifies this
      ensures exists stale :: Snap(stale) == RunCalls(State(Loaded(nodes), [], [], {}), calls)
      ensures DistinctConns(calls) ==> Valid()
    {
      LoadFromDb(nodes);
      assert workers == Loaded(nodes);
      ghost var start := Snap({});
      var stale := {};
      for i := 0 to |calls|
        invariant Snap(stale) == RunCalls(start, calls[..i])
      {
        assert calls[..i + 1][..i] == calls[..i];
        stale := Perform(calls[i], stale);
      }
      assert calls[..|calls|] == calls;
      if DistinctConns(calls) {
        RunIsGood(nodes, calls);
        assert calls[..|calls|] == calls;
      }
    }

    method Perform(call: Call, stale: set<NodeId>) returns (rest: set<NodeId>)
      modifies this
      ensures Snap(rest) == After(old(Snap(stale)), call)
    {
      rest := stale;
      match call {
        case DoRegister(n, c, now, token) => Register(n, c, now, token);
        case DoClear(n) => ClearWorker(n);
        case DoOffline(n) => SetOffline(n);
        case DoUnregister(n) => Unregister(n);
        case DoHeartbeat(n, now) => var _ := UpdateHeartbeat(n, now);
        case DoReapScan(timeout, now) => rest := StaleWorkers(timeout, now);
        case DoReapNext(n) =>
          if n in stale {
            rest := stale - {n};
            SetOffline(n);
          }
      }
    }
  }
}
