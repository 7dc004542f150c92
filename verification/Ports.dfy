/** Port blocks: what a free block is, how game ports map into one, and who holds which port. */
module Ports {
  import opened Common

  type Id = string

  /** A worker node; the empty string is the absent node. */
  type NodeId = string

  datatype GamePort = GamePort(name: string, number: int, protocol: string)

  datatype PortMapping = PortMapping(name: string, port: int, protocol: string)

  /** The part of a persisted gameserver that port allocation reads. */
  datatype Row = Row(node: NodeId, ports: seq<PortMapping>, auto: bool)

  /** A placement whose creator has not persisted it yet. */
  datatype Claim = Claim(node: NodeId, ports: seq<PortMapping>)

  /** Where a migration or unarchive takes a gameserver, not persisted yet: newly allocated ports, or the old ones. */
  datatype Move = Move(node: NodeId, ports: seq<PortMapping>, isNew: bool)

  /** The nodes for which reading the gameserver list, or the node's own record, fails. */
  datatype Faults = Faults(lists: set<NodeId>, nodes: set<NodeId>)

  function Numbers(ports: seq<GamePort>): set<int> {
    set p | p in ports :: p.number
  }

  function HostPorts(ports: seq<PortMapping>): set<int> {
    set p | p in ports :: p.port
  }

  function PortList(ports: seq<PortMapping>): seq<int> {
    seq(|ports|, i requires 0 <= i < |ports| => ports[i].port)
  }

  lemma PortListElements(ports: seq<PortMapping>, p: int)
    ensures p in PortList(ports) <==> p in HostPorts(ports)
  {
    if p in HostPorts(ports) {
      var i :| 0 <= i < |ports| && ports[i].port == p;
      assert PortList(ports)[i] == p;
    }
  }

  // ----- free blocks -----

  ghost predicate FreeBlock(used: set<int>, lo: int, hi: int, size: nat, base: int) {
    lo <= base && base + size - 1 <= hi && forall p :: base <= p < base + size ==> p !in used
  }

  ghost predicate LeastFree(used: set<int>, lo: int, hi: int, size: nat, base: int) {
    FreeBlock(used, lo, hi, size, base) && forall b :: b < base ==> !FreeBlock(used, lo, hi, size, b)
  }

  ghost predicate SomeFree(used: set<int>, lo: int, hi: int, size: nat) {
    exists b :: FreeBlock(used, lo, hi, size, b)
  }

  // ----- the mapping of game ports into a block -----

  /** Position of a port number among the game's distinct port numbers. */
  function Rank(numbers: set<int>, n: int): nat {
    |set m | m in numbers && m < n|
  }

  lemma RankIsStrict(numbers: set<int>, a: int, b: int)
    requires a in numbers && b in numbers
    ensures a < b <==> Rank(numbers, a) < Rank(numbers, b)
    ensures a == b <==> Rank(numbers, a) == Rank(numbers, b)
    ensures Rank(numbers, a) < |numbers|
  {
    if a < b {
      RankGrows(numbers, a, b);
    } else if b < a {
      RankGrows(numbers, b, a);
    }
    RankInside(numbers, a);
  }

  lemma RankInside(numbers: set<int>, a: int)
    requires a in numbers
    ensures Rank(numbers, a) < |numbers|
  {
    var below := set m | m in numbers && m < a;
    SmallerSet(below, numbers - {a});
  }

  lemma RankGrows(numbers: set<int>, a: int, b: int)
    requires a in numbers && b in numbers && a < b
    ensures Rank(numbers, a) < Rank(numbers, b)
  {
    var belowA, belowB := set m | m in numbers && m < a, set m | m in numbers && m < b;
    SmallerSet(belowA, belowB - {a});
  }

  lemma {:induction false} SmallerSet<T>(a: set<T>, b: set<T>)
    requires a <= b
    ensures |a| <= |b|
  {
    assert b == a + (b - a);
  }

  /** The host ports a game gets when its block starts at `base`. */
  ghost predicate MappedAt(ports: seq<GamePort>, base: int, result: seq<PortMapping>) {
    && |result| == |ports|
    && forall i :: 0 <= i < |ports| ==>
         result[i] == PortMapping(ports[i].name, base + Rank(Numbers(ports), ports[i].number), ports[i].protocol)
  }

  /** The mapping keeps the order of the game's ports and merges exactly the equal ones. */
  lemma MappingKeepsOrder(ports: seq<GamePort>, base: int, result: seq<PortMapping>, i: nat, j: nat)
    requires MappedAt(ports, base, result) && i < |ports| && j < |ports|
    ensures result[i].name == ports[i].name && result[i].protocol == ports[i].protocol
    ensures ports[i].number < ports[j].number <==> result[i].port < result[j].port
    ensures ports[i].number == ports[j].number <==> result[i].port == result[j].port
    ensures base <= result[i].port < base + |Numbers(ports)|
  {
    assert ports[i].number in Numbers(ports) && ports[j].number in Numbers(ports);
    RankIsStrict(Numbers(ports), ports[i].number, ports[j].number);
  }

  /** The least port number is mapped to the base. */
  lemma LowestIsMapped(ports: seq<GamePort>, base: int, result: seq<PortMapping>)
    requires MappedAt(ports, base, result) && ports != []
    ensures base in HostPorts(result)
  {
    var n := LeastNumber(ports);
    var i :| 0 <= i < |ports| && ports[i].number == n;
    assert (set m | m in Numbers(ports) && m < n) == {};
    assert result[i].port == base && result[i] in result;
  }

  lemma {:induction false} LeastNumber(ports: seq<GamePort>) returns (n: int)
    requires ports != []
    ensures n in Numbers(ports) && forall m :: m in Numbers(ports) ==> n <= m
  {
    if |ports| == 1 {
      n := ports[0].number;
    } else {
      n := LeastNumber(ports[1..]);
      if ports[0].number < n {
        n := ports[0].number;
      }
      assert forall p :: p in ports <==> p == ports[0] || p in ports[1..];
      assert Numbers(ports) == {ports[0].number} + Numbers(ports[1..]);
    }
  }

  /** What a block placed at a free base takes: only free ports of the range. */
  lemma MappingStaysInBlock(ports: seq<GamePort>, used: set<int>, lo: int, hi: int, base: int,
                            result: seq<PortMapping>)
    requires FreeBlock(used, lo, hi, |Numbers(ports)|, base) && MappedAt(ports, base, result)
    ensures forall p :: p in HostPorts(result) ==> lo <= p <= hi && p !in used
  {
    forall p | p in HostPorts(result)
      ensures lo <= p <= hi && p !in used
    {
      var i :| 0 <= i < |result| && result[i].port == p;
      MappingKeepsOrder(ports, base, result, i, i);
    }
  }

  // ----- who holds which port -----

  /** Gameserver `id` holds nonzero auto-allocated port `p` on `node`, persisted or in flight. */
  ghost predicate Holds(rows: map<Id, Row>, inflight: map<Id, Claim>, id: Id, node: NodeId, p: int) {
    && p != 0
    && ((id in rows && rows[id].auto && rows[id].node == node && p in HostPorts(rows[id].ports)) ||
        (id in inflight && inflight[id].node == node && p in HostPorts(inflight[id].ports)))
  }

  /** Two holders are in each other's way anywhere in the cluster, or only on one node. */
  predicate InScope(clusterWide: bool, m: NodeId, n: NodeId) {
    clusterWide || (m == n && m != "")
  }

  /** No two gameservers hold the same port within the uniqueness scope. */
  ghost predicate Exclusive(rows: map<Id, Row>, inflight: map<Id, Claim>, clusterWide: bool) {
    forall a, b, na, nb, p ::
      Holds(rows, inflight, a, na, p) && Holds(rows, inflight, b, nb, p) && InScope(clusterWide, na, nb) ==> a == b
  }

  /** No two gameservers on nodes, whichever nodes these are, hold the same port. */
  ghost predicate ExclusiveOnNodes(rows: map<Id, Row>, inflight: map<Id, Claim>) {
    forall a, b, na, nb, p ::
      Holds(rows, inflight, a, na, p) && Holds(rows, inflight, b, nb, p) && na != "" && nb != "" ==> a == b
  }

  datatype Range = Range(lo: Option<int>, hi: Option<int>)

  /** The ports of a range set at both ends; an inverted range has none. */
  predicate InRange(r: Range, p: int) {
    r.lo.Some? && r.hi.Some? && r.lo.value <= p <= r.hi.value
  }

  ghost predicate DisjointRanges(ranges: map<NodeId, Range>) {
    forall m, n, p :: m in ranges && n in ranges && InRange(ranges[m], p) && InRange(ranges[n], p) ==> m == n
  }

  ghost predicate HeldInRange(rows: map<Id, Row>, inflight: map<Id, Claim>, ranges: map<NodeId, Range>) {
    forall id, node, p :: Holds(rows, inflight, id, node, p) && node != "" ==>
      node in ranges && InRange(ranges[node], p)
  }

  /** With disjoint ranges on every node, node-scoped uniqueness is uniqueness across the nodes. */
  lemma NodeScopeIsClusterWide(rows: map<Id, Row>, inflight: map<Id, Claim>, ranges: map<NodeId, Range>)
    requires DisjointRanges(ranges) && HeldInRange(rows, inflight, ranges)
    ensures Exclusive(rows, inflight, false) <==> ExclusiveOnNodes(rows, inflight)
  {
    if Exclusive(rows, inflight, false) {
      forall a, b, na, nb, p |
          Holds(rows, inflight, a, na, p) && Holds(rows, inflight, b, nb, p) && na != "" && nb != ""
        ensures a == b
      {
        assert InRange(ranges[na], p) && InRange(ranges[nb], p);
      }
    }
  }

  // ----- the allocator's state -----

  function Elements(s: seq<int>): set<int> {
    set x | x in s
  }

  /** A step of some creator, migration, unarchive, archive or deletion. */
  datatype Event =
    | DoCreate(ports: seq<GamePort>, id: Id, pinned: NodeId, ranked: seq<NodeId>, fits: set<NodeId>, faults: Faults)
    | DoPersist(id: Id)
    | DoPersistManual(id: Id, row: Row)
    | DoCommit(id: Id)
    | DoRelease(id: Id)
    | DoDelete(id: Id)
    | DoArchive(id: Id)
    | DoReallocate(id: Id, ports: seq<GamePort>, node: NodeId, faults: Faults)
    | DoPersistMove(id: Id)
    | DoAbandonMove(id: Id)

  datatype Table = Table(
    clusterWide: bool, rangeStart: int, rangeEnd: int, ranges: map<NodeId, Range>,
    rows: map<Id, Row>, pending: map<Id, seq<int>>, inflight: map<Id, Claim>, moving: map<Id, Move>)
  {
    /** A node's own range when both ends are set and its record can be read, otherwise the global one. */
    function PortRangeForNode(node: NodeId, faults: Faults): (int, int) {
      if node != "" && node !in faults.nodes && node in ranges && ranges[node].lo.Some? && ranges[node].hi.Some?
      then (ranges[node].lo.value, ranges[node].hi.value)
      else (rangeStart, rangeEnd)
    }

    ghost predicate RangesNonNegative() {
      rangeStart >= 0 && forall n :: n in ranges && ranges[n].lo.Some? ==> ranges[n].lo.value >= 0
    }

    /** Ports of the persisted gameservers among `ids` that count for `node`. */
    ghost function RowPorts(ids: set<Id>, node: NodeId, exclude: Id): set<int> {
      set id, p | id in ids && id in rows && id != exclude && (clusterWide || rows[id].node == node) &&
                  p in HostPorts(rows[id].ports) && p != 0 :: p
    }

    /** Reserved ports of the gameservers among `ids`. */
    ghost function PendingPorts(ids: set<Id>, exclude: Id): set<int> {
      set id, p | id in ids && id in pending && id != exclude && p in Elements(pending[id]) :: p
    }

    lemma OneMorePending(ids: set<Id>, id: Id, exclude: Id)
      requires id in pending
      ensures PendingPorts(ids + {id}, exclude) ==
              PendingPorts(ids, exclude) + if id != exclude then Elements(pending[id]) else {}
    {
      forall p ensures p in PendingPorts({id}, exclude) <==> id != exclude && p in Elements(pending[id]) {}
      assert PendingPorts(ids + {id}, exclude) == PendingPorts(ids, exclude) + PendingPorts({id}, exclude);
    }

    ghost function Used(node: NodeId, exclude: Id): set<int> {
      RowPorts(rows.Keys, node, exclude) + PendingPorts(pending.Keys, exclude)
    }

    /** Whether the list can be read and the node has a free block for the game. */
    ghost predicate CanAllocate(ports: seq<GamePort>, node: NodeId, exclude: Id, faults: Faults) {
      var (lo, hi) := PortRangeForNode(node, faults);
      ports == [] || (node !in faults.lists && SomeFree(Used(node, exclude), lo, hi, |Numbers(ports)|))
    }

    /** The mapping onto the least free block of the node. */
    ghost predicate Allocation(ports: seq<GamePort>, node: NodeId, exclude: Id, faults: Faults,
                               result: seq<PortMapping>)
    {
      var (lo, hi) := PortRangeForNode(node, faults);
      if ports == [] then result == []
      else exists base ::
             LeastFree(Used(node, exclude), lo, hi, |Numbers(ports)|, base) && MappedAt(ports, base, result)
    }

    /** Whether the node admits the gameserver: its limits do, and there is a free block if one is needed. */
    ghost predicate Placeable(ports: seq<GamePort>, auto: bool, fits: set<NodeId>, faults: Faults, node: NodeId) {
      (node == "" || node in fits) && (auto ==> CanAllocate(ports, node, "", faults))
    }

    /** The node a placement takes: the pinned one, or the first ranked one that admits the gameserver. */
    ghost predicate Chooses(ports: seq<GamePort>, auto: bool, pinned: NodeId, ranked: seq<NodeId>, fits: set<NodeId>,
                            faults: Faults, node: NodeId)
    {
      if pinned != "" then node == pinned && Placeable(ports, auto, fits, faults, pinned)
      else exists i :: 0 <= i < |ranked| && ranked[i] == node && Placeable(ports, auto, fits, faults, node) &&
                       forall j :: 0 <= j < i ==> !Placeable(ports, auto, fits, faults, ranked[j])
    }

    // ----- steps -----

    /** The table with a new claim; a game without ports reserves nothing. */
    function Claimed(ports: seq<GamePort>, id: Id, claim: Claim): Table {
      this.(pending := if ports == [] then pending else pending[id := PortList(claim.ports)],
            inflight := inflight[id := claim])
    }

    function Persisted(id: Id): Table
      requires id in inflight
    {
      this.(rows := rows[id := Row(inflight[id].node, inflight[id].ports, true)], inflight := inflight - {id})
    }

    /** Under node scope a move gets new ports if there are any, otherwise it keeps the old ones. */
    ghost predicate Reallocated(id: Id, ports: seq<GamePort>, node: NodeId, faults: Faults, move: Move)
      requires id in rows
    {
      && move.node == node
      && (move.isNew <==> !clusterWide && CanAllocate(ports, node, id, faults))
      && (if move.isNew then Allocation(ports, node, id, faults, move.ports) else move.ports == rows[id].ports)
    }

    /** Node and ports of a move become the row's, if the gameserver is still there. */
    function Moved(id: Id): Table
      requires id in moving
    {
      this.(rows := if id in rows then rows[id := rows[id].(node := moving[id].node, ports := moving[id].ports)]
                    else rows,
            moving := moving - {id})
    }

    /** Archiving takes the node away and leaves the ports in the row. */
    function Vacated(id: Id): Table
      requires id in rows
    {
      this.(rows := rows[id := rows[id].(node := "")])
    }

    predicate Unknown(id: Id) {
      id != "" && id !in rows && id !in inflight && id !in moving
    }

    /** What one step may lead to; a step that does not apply changes nothing. */
    ghost predicate Step(e: Event, after: Table) {
      match e
      case DoCreate(ports, id, pinned, ranked, fits, faults) =>
        if !Unknown(id) then after == this
        else
          || (after == this && forall node :: !Chooses(ports, true, pinned, ranked, fits, faults, node))
          || exists claim: Claim ::
               && Chooses(ports, true, pinned, ranked, fits, faults, claim.node)
               && Allocation(ports, claim.node, "", faults, claim.ports)
               && after == Claimed(ports, id, claim)
      case DoPersist(id) => after == if id in inflight then Persisted(id) else this
      case DoPersistManual(id, row) =>
        after == if Unknown(id) && !row.auto then this.(rows := rows[id := row]) else this
      case DoCommit(id) => after == if id !in inflight then this.(pending := pending - {id}) else this
      case DoRelease(id) => after == this.(pending := pending - {id}, inflight := inflight - {id})
      case DoDelete(id) => after == this.(rows := rows - {id})
      case DoArchive(id) => after == if id in rows then Vacated(id) else this
      case DoReallocate(id, ports, node, faults) =>
        if id in rows then
          exists move :: Reallocated(id, ports, node, faults, move) && after == this.(moving := moving[id := move])
        else after == this
      case DoPersistMove(id) => after == if id in moving then Moved(id) else this
      case DoAbandonMove(id) => after == this.(moving := moving - {id})
    }

    // ----- what is kept -----

    /** Nobody else holds a port of the move in scope. */
    ghost predicate MoveFree(id: Id)
      requires id in moving
    {
      forall b, n, p :: b != id && p in HostPorts(moving[id].ports) && Holds(rows, inflight, b, n, p) ==>
        !InScope(clusterWide, n, moving[id].node)
    }

    /** No other freshly allocated move in scope shares a port with it. */
    ghost predicate MoveApart(id: Id)
      requires id in moving
    {
      forall b, p ::
        (b in moving && b != id && moving[b].isNew && p != 0 && p in HostPorts(moving[id].ports) &&
         p in HostPorts(moving[b].ports)) ==>
          !InScope(clusterWide, moving[b].node, moving[id].node)
    }

    /** Moves wait for their row write: fresh ones are still free, the others have the row's ports. */
    ghost predicate MovesKept() {
      forall id :: id in moving ==>
        if moving[id].isNew then !clusterWide && MoveFree(id) && MoveApart(id)
        else id in rows ==> moving[id].ports == rows[id].ports
    }

    /** Every in-flight port is reserved. */
    ghost predicate ClaimsReserved() {
      forall id, p :: id in inflight && p in HostPorts(inflight[id].ports) ==>
        id in pending && p in Elements(pending[id])
    }

    /** Reservations cover the claims, no port has two holders in scope, and moves are kept. Ids are never empty. */
    ghost predicate Valid() {
      && RangesNonNegative() && ClaimsReserved()
      && Exclusive(rows, inflight, clusterWide)
      && MovesKept()
      && rows.Keys !! inflight.Keys && moving.Keys !! inflight.Keys
      && "" !in rows && "" !in inflight
    }

    /** No freshly allocated move of another gameserver waits to be persisted on the node. */
    ghost predicate NoMoveTo(node: NodeId, id: Id) {
      forall a :: a in moving && a != id && moving[a].isNew ==> moving[a].node != node
    }

    /**
     What a run must not do: allocate on a node while a reallocation onto it is not persisted,
     or persist kept ports that somebody else holds, or waits to hold, on the new node.
     */
    ghost predicate Admissible(e: Event) {
      match e
      case DoCreate(ports, id, pinned, ranked, fits, faults) =>
        forall node :: Chooses(ports, true, pinned, ranked, fits, faults, node) ==> NoMoveTo(node, id)
      case DoReallocate(id, _, node, _) => NoMoveTo(node, id)
      case DoPersistMove(id) =>
        id in moving && !moving[id].isNew && !clusterWide && id in rows && rows[id].auto ==>
          MoveFree(id) && MoveApart(id)
      case _ => true
    }

    /** Allocated ports are in the range that was read and not in use. */
    lemma AllocationUnused(ports: seq<GamePort>, node: NodeId, exclude: Id, faults: Faults, result: seq<PortMapping>,
                           p: int)
      requires Allocation(ports, node, exclude, faults, result) && p in HostPorts(result)
      ensures PortRangeForNode(node, faults).0 <= p <= PortRangeForNode(node, faults).1
      ensures p !in Used(node, exclude)
    {
      var used := Used(node, exclude);
      var (lo, hi) := PortRangeForNode(node, faults);
      var base :| LeastFree(used, lo, hi, |Numbers(ports)|, base) && MappedAt(ports, base, result);
      MappingStaysInBlock(ports, used, lo, hi, base, result);
    }

    /** A port of the node that is in use is a nonzero port of a row in scope or a reserved one. */
    lemma UsedIsTaken(node: NodeId, exclude: Id, p: int)
      ensures p in Used(node, exclude) <==>
              || (exists id, m :: id in rows && id != exclude && (clusterWide || rows[id].node == node) &&
                                  m in rows[id].ports && m.port == p && p != 0)
              || (exists id :: id in pending && id != exclude && p in pending[id])
    {
      if p in RowPorts(rows.Keys, node, exclude) {
        var id :| id in rows && id != exclude && (clusterWide || rows[id].node == node) &&
                  p in HostPorts(rows[id].ports) && p != 0;
        var m :| m in rows[id].ports && m.port == p;
      }
      if id, m :| id in rows && id != exclude && (clusterWide || rows[id].node == node) &&
                  m in rows[id].ports && m.port == p && p != 0 {
        assert p in HostPorts(rows[id].ports);
      }
      if p in PendingPorts(pending.Keys, exclude) {
        var id :| id in pending && id != exclude && p in Elements(pending[id]);
      }
      if id :| id in pending && id != exclude && p in pending[id] {
        assert p in Elements(pending[id]);
      }
    }

    /**
     Allocated ports lie in the node's own range, or in the global one, and nobody in scope has
     them, whether a row with allocated or with chosen ports or a reservation.
     */
    lemma AllocationAvoidsTaken(ports: seq<GamePort>, node: NodeId, exclude: Id, faults: Faults,
                                result: seq<PortMapping>, k: nat)
      requires Allocation(ports, node, exclude, faults, result) && k < |result|
      ensures forall id, m ::
                (id in rows && id != exclude && (clusterWide || rows[id].node == node) && m in rows[id].ports &&
                 m.port != 0) ==> m.port != result[k].port
      ensures forall id :: id in pending && id != exclude ==> result[k].port !in pending[id]
      ensures if node != "" && node !in faults.nodes && node in ranges && ranges[node].lo.Some? && ranges[node].hi.Some?
              then ranges[node].lo.value <= result[k].port <= ranges[node].hi.value
              else rangeStart <= result[k].port <= rangeEnd
    {
      assert result[k] in result;
      AllocationUnused(ports, node, exclude, faults, result, result[k].port);
      UsedIsTaken(node, exclude, result[k].port);
    }

    /**
     Every base that fits the range, below the allocated block or anywhere when the node has no
     room, meets a nonzero port of a row in scope or a reserved one.
     */
    lemma LowerBasesAreTaken(ports: seq<GamePort>, node: NodeId, exclude: Id, faults: Faults,
                             result: seq<PortMapping>, b: int)
      requires ports != [] && node !in faults.lists
      requires CanAllocate(ports, node, exclude, faults) ==>
                 Allocation(ports, node, exclude, faults, result) && forall m :: m in result ==> b < m.port
      requires if node != "" && node !in faults.nodes && node in ranges && ranges[node].lo.Some? &&
                  ranges[node].hi.Some?
               then ranges[node].lo.value <= b && b + |Numbers(ports)| - 1 <= ranges[node].hi.value
               else rangeStart <= b && b + |Numbers(ports)| - 1 <= rangeEnd
      ensures || (exists id, m :: id in rows && id != exclude && (clusterWide || rows[id].node == node) &&
                                  m in rows[id].ports && m.port != 0 && b <= m.port < b + |Numbers(ports)|)
              || (exists id, p :: id in pending && id != exclude && p in pending[id] && b <= p < b + |Numbers(ports)|)
    {
      var used, size := Used(node, exclude), |Numbers(ports)|;
      var (lo, hi) := PortRangeForNode(node, faults);
      if CanAllocate(ports, node, exclude, faults) {
        var base :| LeastFree(used, lo, hi, size, base) && MappedAt(ports, base, result);
        LowestIsMapped(ports, base, result);
      }
      assert !FreeBlock(used, lo, hi, size, b);
      var p :| b <= p < b + size && p in used;
      UsedIsTaken(node, exclude, p);
    }

    /** A placement takes the pinned node, or no later node than any ranked one that would do. */
    lemma NoEarlierNodeAdmits(ports: seq<GamePort>, auto: bool, pinned: NodeId, ranked: seq<NodeId>, fits: set<NodeId>,
                              faults: Faults, node: NodeId, j: nat)
      requires Chooses(ports, auto, pinned, ranked, fits, faults, node)
      ensures (node == "" || node in fits) && (auto ==> CanAllocate(ports, node, "", faults))
      ensures if pinned != "" then node == pinned
              else node in ranked
      ensures (pinned == "" && j < |ranked| && (ranked[j] == "" || ranked[j] in fits) &&
               (auto ==> CanAllocate(ports, ranked[j], "", faults))) ==> node in ranked[..j + 1]
    {
      if pinned == "" {
        var i :| 0 <= i < |ranked| && ranked[i] == node &&
                 forall k :: 0 <= k < i ==> !Placeable(ports, auto, fits, faults, ranked[k]);
        if i <= j < |ranked| {
          assert ranked[..j + 1][i] == node;
        }
      }
    }

    lemma HeldIsUsed(id: Id, n: NodeId, p: int, node: NodeId, exclude: Id)
      requires ClaimsReserved() && Holds(rows, inflight, id, n, p) && id != exclude && (clusterWide || n == node)
      ensures p in Used(node, exclude)
    {
      if id in inflight && p in HostPorts(inflight[id].ports) {
        assert id in pending && p in Elements(pending[id]);
        assert p in PendingPorts(pending.Keys, exclude);
      } else {
        assert p in RowPorts(rows.Keys, node, exclude);
      }
    }

    /** Allocated ports are held by nobody else in scope. */
    lemma AllocationIsFree(ports: seq<GamePort>, node: NodeId, exclude: Id, faults: Faults, result: seq<PortMapping>,
                           id: Id, n: NodeId, p: int)
      requires ClaimsReserved() && Allocation(ports, node, exclude, faults, result) && p in HostPorts(result)
      requires id != exclude && Holds(rows, inflight, id, n, p)
      ensures !InScope(clusterWide, n, node)
    {
      AllocationUnused(ports, node, exclude, faults, result, p);
      if clusterWide || n == node {
        HeldIsUsed(id, n, p, node, exclude);
      }
    }

    /** A fresh, reserved allocation in a creator's hands keeps the table valid. */
    lemma ClaimKeepsValid(ports: seq<GamePort>, id: Id, claim: Claim, faults: Faults)
      requires Valid() && Unknown(id) && NoMoveTo(claim.node, id)
      requires Allocation(ports, claim.node, "", faults, claim.ports)
      ensures Claimed(ports, id, claim).Valid()
    {
      var after := Claimed(ports, id, claim);
      forall a, b, na, nb, p | Holds(rows, after.inflight, a, na, p) && Holds(rows, after.inflight, b, nb, p) &&
                               InScope(clusterWide, na, nb)
        ensures a == b
      {
        if a == id && b != id {
          AllocationIsFree(ports, claim.node, "", faults, claim.ports, b, nb, p);
        } else if b == id && a != id {
          AllocationIsFree(ports, claim.node, "", faults, claim.ports, a, na, p);
        } else if a != id {
          assert Holds(rows, inflight, a, na, p) && Holds(rows, inflight, b, nb, p);
        }
      }
      forall i, p | i in after.inflight && p in HostPorts(after.inflight[i].ports)
        ensures i in after.pending && p in Elements(after.pending[i])
      {
        PortListElements(claim.ports, p);
      }
      ClaimKeepsMoves(ports, id, claim);
    }

    lemma ClaimKeepsMoves(ports: seq<GamePort>, id: Id, claim: Claim)
      requires MovesKept() && Unknown(id) && NoMoveTo(claim.node, id)
      ensures Claimed(ports, id, claim).MovesKept()
    {
      var after := Claimed(ports, id, claim);
      forall a, b, n, p | a in moving && moving[a].isNew && b != a && p in HostPorts(moving[a].ports) &&
                          Holds(rows, after.inflight, b, n, p)
        ensures !InScope(clusterWide, n, moving[a].node)
      {
        if b != id {
          assert Holds(rows, inflight, b, n, p);
        }
      }
    }

    /** A move to freshly allocated ports, before its row write, keeps the table valid. */
    lemma ReallocationKeepsValid(id: Id, ports: seq<GamePort>, node: NodeId, faults: Faults, move: Move)
      requires Valid() && id in rows && NoMoveTo(node, id) && Reallocated(id, ports, node, faults, move)
      ensures this.(moving := moving[id := move]).Valid()
    {
      var after := this.(moving := moving[id := move]);
      if move.isNew {
        forall b, n, p | b != id && p in HostPorts(move.ports) && Holds(rows, inflight, b, n, p)
          ensures !InScope(clusterWide, n, node)
        {
          AllocationIsFree(ports, node, id, faults, move.ports, b, n, p);
        }
        assert after.MoveFree(id) && after.MoveApart(id);
      }
      forall a | a in moving && a != id && moving[a].isNew
        ensures after.MoveFree(a) && after.MoveApart(a)
      {
        assert MoveFree(a) && MoveApart(a);
      }
    }

    /** The ports of a move when they are persisted: free, or the row's own under cluster scope. */
    ghost predicate MoveSafe(id: Id)
      requires id in moving
    {
      if clusterWide then id in rows ==> moving[id].ports == rows[id].ports
      else MoveFree(id) && MoveApart(id)
    }

    lemma PersistedMoveIsExclusive(id: Id)
      requires Exclusive(rows, inflight, clusterWide) && id in moving && id in rows && id !in inflight
      requires rows[id].auto ==> MoveSafe(id)
      ensures Exclusive(Moved(id).rows, inflight, clusterWide)
    {
      var after := Moved(id).rows;
      forall a, b, na, nb, p | Holds(after, inflight, a, na, p) && Holds(after, inflight, b, nb, p) &&
                               InScope(clusterWide, na, nb)
        ensures a == b
      {
        assert a != id ==> Holds(rows, inflight, a, na, p);
        assert b != id ==> Holds(rows, inflight, b, nb, p);
        if clusterWide {
          assert a == id ==> Holds(rows, inflight, id, rows[id].node, p);
          assert b == id ==> Holds(rows, inflight, id, rows[id].node, p);
        }
      }
    }

    lemma PersistedMoveKeepsMoves(id: Id)
      requires MovesKept() && id in moving && id in rows && id !in inflight
      requires rows[id].auto ==> MoveSafe(id)
      ensures Moved(id).MovesKept()
    {
      var after := Moved(id);
      forall a | a in moving && a != id && moving[a].isNew
        ensures after.MoveFree(a) && after.MoveApart(a)
      {
        assert MoveFree(a) && MoveApart(a);
        forall b, n, p | b != a && p in HostPorts(moving[a].ports) && Holds(after.rows, inflight, b, n, p)
          ensures !InScope(clusterWide, n, moving[a].node)
        {
          assert b != id ==> Holds(rows, inflight, b, n, p);
        }
      }
    }

    lemma MoveKeepsValid(id: Id)
      requires Valid() && id in moving
      requires id in rows && rows[id].auto ==> MoveSafe(id)
      ensures Moved(id).Valid()
    {
      if id in rows {
        PersistedMoveIsExclusive(id);
        PersistedMoveKeepsMoves(id);
      } else {
        FewerHolders(Moved(id));
      }
    }

    /**
     Persisting a move under node scope, with new ports or with kept ones, keeps ports exclusive
     exactly when nobody else holds one of them on the new node.
     */
    lemma PersistedMoveIsSafeExactly(id: Id)
      requires Exclusive(rows, inflight, false) && id in moving && id in rows && rows[id].auto && id !in inflight
      requires !clusterWide && moving[id].node != "" && 0 !in HostPorts(moving[id].ports)
      ensures Exclusive(Moved(id).rows, inflight, false) <==> MoveFree(id)
    {
      var after, node := Moved(id).rows, moving[id].node;
      if Exclusive(after, inflight, false) {
        forall b, n, p | b != id && p in HostPorts(moving[id].ports) && Holds(rows, inflight, b, n, p)
          ensures !InScope(false, n, node)
        {
          assert Holds(after, inflight, id, node, p) && Holds(after, inflight, b, n, p);
        }
      }
      if MoveFree(id) {
        forall a, b, na, nb, p | Holds(after, inflight, a, na, p) && Holds(after, inflight, b, nb, p) &&
                                 InScope(false, na, nb)
          ensures a == b
        {
          assert a != id ==> Holds(rows, inflight, a, na, p);
          assert b != id ==> Holds(rows, inflight, b, nb, p);
        }
      }
    }

    /** Persisting kept ports keeps the table valid exactly when they are free and no reallocation waits for them. */
    lemma KeptMoveIsSafeExactly(id: Id)
      requires Valid() && !clusterWide && id in moving && !moving[id].isNew && id in rows && rows[id].auto
      requires moving[id].node != "" && 0 !in HostPorts(moving[id].ports)
      ensures Moved(id).Valid() <==> MoveFree(id) && MoveApart(id)
    {
      var after, node := Moved(id), moving[id].node;
      if MoveFree(id) && MoveApart(id) {
        MoveKeepsValid(id);
      }
      if after.Valid() {
        PersistedMoveIsSafeExactly(id);
        forall b, p | b in moving && b != id && moving[b].isNew && p in HostPorts(moving[id].ports) &&
                      p in HostPorts(moving[b].ports)
          ensures !InScope(false, moving[b].node, node)
        {
          assert b in after.moving && after.MoveFree(b) && Holds(after.rows, inflight, id, node, p);
        }
      }
    }

    /** Two moves to one node, both free when computed, may both be persisted exactly if they share no port. */
    lemma TwoMovesAreSafeExactly(a: Id, b: Id)
      requires Exclusive(rows, inflight, false) && a !in inflight && b !in inflight
      requires !clusterWide && a != b && a in moving && b in moving && a in rows && b in rows
      requires rows[a].auto && rows[b].auto && moving[a].node == moving[b].node != "" && MoveFree(a) && MoveFree(b)
      requires 0 !in HostPorts(moving[a].ports)
      ensures Exclusive(Moved(a).Moved(b).rows, inflight, false) <==>
              HostPorts(moving[a].ports) !! HostPorts(moving[b].ports)
    {
      var after, node := Moved(a).Moved(b).rows, moving[a].node;
      if p :| p in HostPorts(moving[a].ports) && p in HostPorts(moving[b].ports) {
        assert Holds(after, inflight, a, node, p) && Holds(after, inflight, b, node, p);
      } else {
        forall c, d, nc, nd, p |
            Holds(after, inflight, c, nc, p) && Holds(after, inflight, d, nd, p) && InScope(false, nc, nd)
          ensures c == d
        {
          assert c != a && c != b ==> Holds(rows, inflight, c, nc, p);
          assert d != a && d != b ==> Holds(rows, inflight, d, nd, p);
        }
      }
    }

    /** Steps after which everybody holds at most what was held before. */
    lemma FewerHolders(after: Table)
      requires Valid() && after.RangesNonNegative() && after.clusterWide == clusterWide && after.ClaimsReserved()
      requires forall a, n, p :: Holds(after.rows, after.inflight, a, n, p) ==> Holds(rows, inflight, a, n, p)
      requires forall a :: a in after.moving ==> a in moving && after.moving[a] == moving[a]
      requires forall a :: a in after.rows && a in moving && !moving[a].isNew ==>
                 a in rows && after.rows[a].ports == rows[a].ports
      requires after.rows.Keys !! after.inflight.Keys && after.moving.Keys !! after.inflight.Keys
      requires "" !in after.rows && "" !in after.inflight
      ensures after.Valid()
    {
      forall a | a in after.moving && moving[a].isNew
        ensures !clusterWide && after.MoveFree(a) && after.MoveApart(a)
      {
        assert MoveFree(a) && MoveApart(a);
      }
    }

    /** An archived gameserver is on no node; under cluster scope its ports stay taken. */
    lemma ArchiveKeepsValid(id: Id)
      requires Valid() && id in rows
      ensures Vacated(id).Valid()
    {
      var after := Vacated(id);
      forall a, n, p | Holds(after.rows, inflight, a, n, p)
        ensures Holds(rows, inflight, a, if a == id && n == "" && a !in inflight then rows[id].node else n, p)
      {
      }
      forall a | a in moving && moving[a].isNew
        ensures after.MoveFree(a) && after.MoveApart(a)
      {
        assert MoveFree(a) && MoveApart(a);
      }
    }

    lemma StepKeepsValid(e: Event, after: Table)
      requires Valid() && Admissible(e) && Step(e, after)
      ensures after.Valid()
    {
      match e {
        case DoCreate(ports, id, pinned, ranked, fits, faults) =>
          if after != this {
            var claim: Claim :|
              Chooses(ports, true, pinned, ranked, fits, faults, claim.node) &&
              Allocation(ports, claim.node, "", faults, claim.ports) && after == Claimed(ports, id, claim);
            ClaimKeepsValid(ports, id, claim, faults);
          }
        case DoArchive(id) =>
          if id in rows {
            ArchiveKeepsValid(id);
          }
        case DoReallocate(id, ports, node, faults) =>
          if id in rows {
            var move :| Reallocated(id, ports, node, faults, move) && after == this.(moving := moving[id := move]);
            ReallocationKeepsValid(id, ports, node, faults, move);
          }
        case DoPersistMove(id) =>
          if id in moving {
            MoveKeepsValid(id);
          }
        case _ => QuietStepKeepsValid(e, after);
      }
    }

    /** Steps that neither allocate nor move nor archive. */
    lemma {:induction false} QuietStepKeepsValid(e: Event, after: Table)
      requires Valid() && Step(e, after)
      requires !e.DoCreate? && !e.DoReallocate? && !e.DoPersistMove? && !e.DoArchive?
      ensures after.Valid()
    {
      FewerHolders(after);
    }

    // ----- ranges -----

    /** Under node scope every auto-allocated port, held or waiting to be, lies in its node's range. */
    ghost predicate PortsInNodeRange() {
      && (forall id, node, p :: Holds(rows, inflight, id, node, p) && node != "" ==> InNodeRange(node, p))
      && (forall id, p :: id in moving && moving[id].isNew && p in HostPorts(moving[id].ports) ==>
            InNodeRange(moving[id].node, p))
    }

    predicate InNodeRange(node: NodeId, p: int) {
      var (lo, hi) := PortRangeForNode(node, Faults({}, {}));
      lo <= p <= hi
    }

    lemma ClaimKeepsRanges(ports: seq<GamePort>, id: Id, claim: Claim, faults: Faults)
      requires PortsInNodeRange() && faults.nodes == {} && Allocation(ports, claim.node, "", faults, claim.ports)
      requires id !in rows
      ensures Claimed(ports, id, claim).PortsInNodeRange()
    {
      forall p | p in HostPorts(claim.ports) ensures InNodeRange(claim.node, p) {
        AllocationUnused(ports, claim.node, "", faults, claim.ports, p);
      }
      RangesFollow(Claimed(ports, id, claim), id);
    }

    lemma ReallocationKeepsRanges(id: Id, ports: seq<GamePort>, node: NodeId, faults: Faults, move: Move)
      requires PortsInNodeRange() && faults.nodes == {} && id in rows && Reallocated(id, ports, node, faults, move)
      ensures this.(moving := moving[id := move]).PortsInNodeRange()
    {
      if move.isNew {
        forall p | p in HostPorts(move.ports) ensures InNodeRange(node, p) {
          AllocationUnused(ports, node, id, faults, move.ports, p);
        }
      }
    }

    /** Steps that read every node's record, and moves that do not keep old ports, keep ports in their node's range. */
    lemma StepKeepsRanges(e: Event, after: Table)
      requires PortsInNodeRange() && Step(e, after)
      requires e.DoCreate? || e.DoReallocate? ==> e.faults.nodes == {}
      requires e.DoPersistMove? && e.id in moving ==> moving[e.id].isNew
      ensures after.PortsInNodeRange()
    {
      match e {
        case DoCreate(ports, id, pinned, ranked, fits, faults) =>
          if after != this {
            var claim: Claim :| Allocation(ports, claim.node, "", faults, claim.ports) &&
              after == Claimed(ports, id, claim);
            ClaimKeepsRanges(ports, id, claim, faults);
          }
        case DoReallocate(id, ports, node, faults) =>
          if id in rows {
            var move :| Reallocated(id, ports, node, faults, move) && after == this.(moving := moving[id := move]);
            ReallocationKeepsRanges(id, ports, node, faults, move);
          }
        case DoPersistMove(id) =>
          forall n, p | Holds(after.rows, after.inflight, id, n, p) && n != ""
            ensures InNodeRange(n, p)
          {
            assert id !in moving || n != moving[id].node || p !in HostPorts(moving[id].ports) ==>
              Holds(rows, inflight, id, n, p);
          }
          RangesFollow(after, id);
        case _ => QuietStepKeepsRanges(e, after);
      }
    }

    lemma QuietStepKeepsRanges(e: Event, after: Table)
      requires PortsInNodeRange() && Step(e, after) && !e.DoCreate? && !e.DoReallocate? && !e.DoPersistMove?
      ensures after.PortsInNodeRange()
    {
      forall n, p | Holds(after.rows, after.inflight, e.id, n, p) && n != ""
        ensures Holds(rows, inflight, e.id, n, p)
      {
      }
      RangesFollow(after, e.id);
    }

    /** Only one gameserver's holdings change. */
    lemma RangesFollow(after: Table, id: Id)
      requires PortsInNodeRange() && after.ranges == ranges
      requires after.rangeStart == rangeStart && after.rangeEnd == rangeEnd
      requires forall a, n, p :: a != id && Holds(after.rows, after.inflight, a, n, p) ==>
                 Holds(rows, inflight, a, n, p)
      requires forall n, p :: Holds(after.rows, after.inflight, id, n, p) && n != "" ==> InNodeRange(n, p)
      requires forall a :: a in after.moving ==> a in moving && after.moving[a] == moving[a]
      ensures after.PortsInNodeRange()
    {
      forall n, p ensures after.InNodeRange(n, p) == InNodeRange(n, p) {}
    }

    /** Node scope suffices across the nodes when every node that holds ports has its own range. */
    lemma OwnRangesGiveClusterScope()
      requires Valid() && !clusterWide && DisjointRanges(ranges) && PortsInNodeRange()
      requires forall id, node, p :: Holds(rows, inflight, id, node, p) && node != "" ==>
                 node in ranges && ranges[node].lo.Some? && ranges[node].hi.Some?
      ensures ExclusiveOnNodes(rows, inflight)
    {
      NodeScopeIsClusterWide(rows, inflight, ranges);
    }
  }

  // ----- runs -----

  /** The tables a run passes through. */
  ghost predicate IsRun(tables: seq<Table>, events: seq<Event>) {
    |tables| == |events| + 1 && forall i :: 0 <= i < |events| ==> tables[i].Step(events[i], tables[i + 1])
  }

  /** Over every interleaving no two gameservers hold the same auto-allocated port in the uniqueness scope. */
  lemma RunKeepsValid(tables: seq<Table>, events: seq<Event>)
    requires IsRun(tables, events) && tables[0].Valid()
    requires forall i :: 0 <= i < |events| ==> tables[i].Admissible(events[i])
    ensures forall i :: 0 <= i < |tables| ==> tables[i].Valid()
    ensures forall i :: 0 <= i < |tables| ==> Exclusive(tables[i].rows, tables[i].inflight, tables[i].clusterWide)
  {
    for k := 0 to |events|
      invariant forall i :: 0 <= i <= k ==> tables[i].Valid()
    {
      tables[k].StepKeepsValid(events[k], tables[k + 1]);
    }
  }
}
