/**
 The placement service: port allocation with its table of reservations that are not in
 the database yet. `rows` is the gameserver table; `inflight` holds what creators carry
 between placing a gameserver and persisting it.
 */
module Placement {
  import opened Common
  import opened Ports

  /** First free block, found by the skip-ahead scan; -1 when there is none. */
  method FindBlock(used: set<int>, lo: int, hi: int, size: nat) returns (base: int)
    requires size > 0
    ensures base != -1 ==> LeastFree(used, lo, hi, size, base)
    ensures base == -1 ==> !SomeFree(used, lo, hi, size) || LeastFree(used, lo, hi, size, -1)
  {
    base := -1;
    var candidate := lo;
    while candidate + size - 1 <= hi
      invariant lo <= candidate && base == -1
      invariant forall b :: b < candidate ==> !FreeBlock(used, lo, hi, size, b)
      decreases hi - candidate
    {
      var free, offset := true, 0;
      while offset < size
        invariant 0 <= offset <= size && free
        invariant forall p :: candidate <= p < candidate + offset ==> p !in used
      {
        if candidate + offset in used {
          free := false;
          break;
        }
        offset := offset + 1;
      }
      if free {
        base := candidate;
        break;
      }
      forall b | b <= candidate + offset
        ensures !FreeBlock(used, lo, hi, size, b)
      {
        assert b >= candidate ==> b <= candidate + offset < b + size;
      }
      candidate := candidate + offset;
      candidate := candidate + 1;
    }
  }

  ghost predicate StrictlySorted(s: seq<int>) {
    forall i, j :: 0 <= i < j < |s| ==> s[i] < s[j]
  }

  /** Put a new number into its place. */
  function Insert(s: seq<int>, x: int): (r: seq<int>)
    requires StrictlySorted(s) && x !in s
    ensures StrictlySorted(r) && (forall y :: y in r <==> y == x || y in s)
  {
    if s == [] then [x]
    else if x < s[0] then [x] + s
    else
      var rest := Insert(s[1..], x);
      assert s[0] in s && s[0] < x;
      assert forall y :: y in s[1..] ==> s[0] < y;
      assert forall i :: 0 <= i < |rest| ==> rest[i] in rest;
      [s[0]] + rest
  }

  lemma {:induction false} RankOfSorted(s: seq<int>, i: nat)
    requires StrictlySorted(s) && i < |s|
    ensures Rank(Elements(s), s[i]) == i
    ensures |Elements(s)| == |s|
  {
    SortedSize(s[..i]);
    SortedSize(s);
    assert (set m | m in Elements(s) && m < s[i]) == Elements(s[..i]);
  }

  lemma ElementsAppend(s: seq<int>, x: int)
    ensures Elements(s + [x]) == Elements(s) + {x}
  {
  }

  lemma LastIsNew(s: seq<int>)
    requires StrictlySorted(s) && s != []
    ensures s[|s| - 1] !in Elements(s[..|s| - 1])
  {
    var front, last := s[..|s| - 1], s[|s| - 1];
    forall k | 0 <= k < |front| ensures front[k] != last {
      assert s[k] < last;
    }
  }

  lemma {:induction false} SortedSize(s: seq<int>)
    requires StrictlySorted(s)
    ensures |Elements(s)| == |s|
  {
    if s != [] {
      var front, last := s[..|s| - 1], s[|s| - 1];
      SortedSize(front);
      LastIsNew(s);
      ElementsAppend(front, last);
      assert s == front + [last];
    }
  }

  /** The game's distinct port numbers in order, and the index of each. */
  method IndexPorts(ports: seq<GamePort>) returns (size: nat, index: map<int, nat>)
    ensures size == |Numbers(ports)|
    ensures index.Keys == Numbers(ports)
    ensures forall n :: n in index ==> index[n] == Rank(Numbers(ports), n)
  {
    var unique: seq<int> := [];
    for i := 0 to |ports|
      invariant StrictlySorted(unique)
      invariant Elements(unique) == Numbers(ports[..i])
    {
      assert ports[..i + 1] == ports[..i] + [ports[i]];
      assert Numbers(ports[..i + 1]) == Numbers(ports[..i]) + {ports[i].number};
      if ports[i].number !in unique {
        unique := Insert(unique, ports[i].number);
      }
    }
    assert ports[..|ports|] == ports;
    index := map[];
    for i := 0 to |unique|
      invariant index.Keys == Elements(unique[..i])
      invariant forall n :: n in index ==> index[n] == Rank(Numbers(ports), n)
    {
      RankOfSorted(unique, i);
      index := index[unique[i] := i];
      assert unique[..i + 1] == unique[..i] + [unique[i]];
    }
    assert unique[..|unique|] == unique;
    size := |unique|;
    if unique != [] {
      RankOfSorted(unique, 0);
    }
  }

  class PlacementService {
    const clusterWide: bool
    const portRangeStart: int
    const portRangeEnd: int
    const ranges: map<NodeId, Range>

    var rows: map<Id, Row>
    var pendingPorts: map<Id, seq<int>>
    /** What creators carry between placing a gameserver and persisting it. */
    var inflight: map<Id, Claim>
    /** What migrations and unarchives carry between reallocating ports and persisting them. */
    var moving: map<Id, Move>

    constructor (clusterWide: bool, start: int, end: int, ranges: map<NodeId, Range>)
      requires start >= 0 && forall n :: n in ranges && ranges[n].lo.Some? ==> ranges[n].lo.value >= 0
      ensures this.clusterWide == clusterWide && this.portRangeStart == start && this.portRangeEnd == end
      ensures this.ranges == ranges && rows == map[] && pendingPorts == map[] && inflight == map[] && moving == map[]
      ensures Snap().Valid()
    {
      this.clusterWide, this.portRangeStart, this.portRangeEnd, this.ranges := clusterWide, start, end, ranges;
      rows, pendingPorts, inflight, moving := map[], map[], map[], map[];
    }

    function Snap(): Table
      reads this
    {
      Table(clusterWide, portRangeStart, portRangeEnd, ranges, rows, pendingPorts, inflight, moving)
    }

    /** Ports in use; the gameserver list may fail to be read. */
    method UsedPorts(node: NodeId, exclude: Id, fails: bool) returns (r: Result<set<int>>)
      ensures r == if fails then Err else Ok(Snap().Used(node, exclude))
      ensures r.Ok? ==> forall p :: p in r.value <==>
                || (exists id, m :: id in rows && id != exclude && (clusterWide || rows[id].node == node) &&
                                    m in rows[id].ports && m.port == p && p != 0)
                || (exists id :: id in pendingPorts && id != exclude && p in pendingPorts[id])
    {
      if fails {
        return Err;
      }
      var used := PersistedPorts(node, exclude);
      var reserved := ReservedPorts(exclude);
      forall p {
        Snap().UsedIsTaken(node, exclude, p);
      }
      return Ok(used + reserved);
    }

    method PersistedPorts(node: NodeId, exclude: Id) returns (used: set<int>)
      ensures used == Snap().RowPorts(rows.Keys, node, exclude)
    {
      used := {};
      var todo := rows.Keys;
      while todo != {}
        invariant todo <= rows.Keys && used == Snap().RowPorts(rows.Keys - todo, node, exclude)
      {
        var id :| id in todo;
        if id != exclude && (clusterWide || rows[id].node == node) {
          used := used + set p | p in HostPorts(rows[id].ports) && p != 0;
        }
        todo := todo - {id};
        assert rows.Keys - todo == (rows.Keys - todo - {id}) + {id};
      }
      assert rows.Keys - todo == rows.Keys;
    }

    method ReservedPorts(exclude: Id) returns (used: set<int>)
      ensures used == Snap().PendingPorts(pendingPorts.Keys, exclude)
    {
      used := {};
      var todo := pendingPorts.Keys;
      while todo != {}
        invariant todo <= pendingPorts.Keys && used == Snap().PendingPorts(pendingPorts.Keys - todo, exclude)
      {
        var id :| id in todo;
        ghost var done := pendingPorts.Keys - todo;
        if id != exclude {
          used := used + Elements(pendingPorts[id]);
        }
        todo := todo - {id};
        assert pendingPorts.Keys - todo == done + {id};
        Snap().OneMorePending(done, id, exclude);
      }
      assert pendingPorts.Keys - todo == pendingPorts.Keys;
    }

    /** `faults` says which reads of the database fail. */
    method AllocatePorts(ports: seq<GamePort>, node: NodeId, exclude: Id, id: Id, faults: Faults)
        returns (r: Result<seq<PortMapping>>)
      requires Snap().RangesNonNegative()
      modifies this`pendingPorts
      ensures r.Ok? <==> old(Snap()).CanAllocate(ports, node, exclude, faults)
      ensures r.Ok? ==> old(Snap()).Allocation(ports, node, exclude, faults, r.value)
      ensures r.Err? || ports == [] || id == "" ==> pendingPorts == old(pendingPorts)
      ensures r.Ok? && ports != [] && id != "" ==> pendingPorts == old(pendingPorts)[id := PortList(r.value)]
    {
      if ports == [] {
        return Ok([]);
      }
      var size, index := IndexPorts(ports);
      assert ports[0].number in Numbers(ports);
      var (lo, hi) := Snap().PortRangeForNode(node, faults);
      var used := UsedPorts(node, exclude, node in faults.lists);
      if used.Err? {
        return Err;
      }
      var base := FindBlock(used.value, lo, hi, size);
      if base == -1 {
        return Err;
      }
      var result := seq(|ports|, i requires 0 <= i < |ports| =>
        assert ports[i].number in Numbers(ports);
        PortMapping(ports[i].name, base + index[ports[i].number], ports[i].protocol));
      assert MappedAt(ports, base, result);
      if id != "" {
        pendingPorts := pendingPorts[id := PortList(result)];
      }
      return Ok(result);
    }

    // ----- placing -----

    /**
     Choose a node and reserve ports: the pinned node, or the first ranked node with room.
     `fits` are the nodes whose resource limits admit the gameserver.
     */
    method PlaceGameserver(ports: seq<GamePort>, id: Id, auto: bool, pinned: NodeId,
                           ranked: seq<NodeId>, fits: set<NodeId>, faults: Faults) returns (r: Result<Claim>)
      requires Snap().RangesNonNegative()
      modifies this`pendingPorts
      ensures r.Err? ==> pendingPorts == old(pendingPorts)
      ensures r.Ok? ==> old(Snap()).Chooses(ports, auto, pinned, ranked, fits, faults, r.value.node)
      ensures r.Err? ==> forall node :: !old(Snap()).Chooses(ports, auto, pinned, ranked, fits, faults, node)
      ensures r.Ok? ==> if auto then old(Snap()).Allocation(ports, r.value.node, "", faults, r.value.ports)
                        else r.value.ports == []
      ensures r.Ok? ==>
                pendingPorts == if auto && ports != [] && id != ""
                                then old(pendingPorts)[id := PortList(r.value.ports)] else old(pendingPorts)
    {
      if pinned != "" {
        if pinned !in fits {
          return Err;
        }
        if auto {
          var mapped := AllocatePorts(ports, pinned, "", id, faults);
          if mapped.Err? {
            return Err;
          }
          return Ok(Claim(pinned, mapped.value));
        }
        return Ok(Claim(pinned, []));
      }
      for i := 0 to |ranked|
        invariant pendingPorts == old(pendingPorts)
        invariant forall j :: 0 <= j < i ==> !old(Snap()).Placeable(ports, auto, fits, faults, ranked[j])
      {
        var node := ranked[i];
        if node == "" || node in fits {
          if !auto {
            return Ok(Claim(node, []));
          }
          var mapped := AllocatePorts(ports, node, "", id, faults);
          if mapped.Ok? {
            return Ok(Claim(node, mapped.value));
          }
        }
      }
      return Err;
    }

    // ----- the life of a placement -----

    /** The creator's first step: place a gameserver under a fresh id and carry the result. */
    method Create(ports: seq<GamePort>, id: Id, pinned: NodeId, ranked: seq<NodeId>, fits: set<NodeId>, faults: Faults)
        returns (r: Result<Claim>)
      requires Snap().RangesNonNegative() && id != ""
      modifies this
      ensures r.Err? ==>
                && Snap() == old(Snap())
                && forall node :: !old(Snap()).Chooses(ports, true, pinned, ranked, fits, faults, node)
      ensures r.Ok? ==> && old(Snap()).Chooses(ports, true, pinned, ranked, fits, faults, r.value.node)
                        && old(Snap()).Allocation(ports, r.value.node, "", faults, r.value.ports)
                        && Snap() == old(Snap()).Claimed(ports, id, r.value)
    {
      r := PlaceGameserver(ports, id, true, pinned, ranked, fits, faults);
      if r.Ok? {
        inflight := inflight[id := r.value];
      }
    }

    /** The creator's row insert: the claim moves from its hands into the table. */
    method Persist(id: Id)
      requires id in inflight
      modifies this
      ensures Snap() == old(Snap()).Persisted(id)
      ensures rows == old(rows)[id := Row(old(inflight)[id].node, old(inflight)[id].ports, true)]
      ensures pendingPorts == old(pendingPorts)
    {
      var claim := inflight[id];
      rows := rows[id := Row(claim.node, claim.ports, true)];
      inflight := inflight - {id};
    }

    /** A gameserver whose ports the user chose. */
    method PersistManual(id: Id, row: Row)
      modifies this
      ensures Snap() == old(Snap()).(rows := old(rows)[id := row])
    {
      rows := rows[id := row];
    }

    /** Once the row is in: drop the reservation. */
    method CommitPorts(id: Id)
      modifies this`pendingPorts
      ensures Snap() == old(Snap()).(pending := old(pendingPorts) - {id})
    {
      pendingPorts := pendingPorts - {id};
    }

    /** A creation that failed gives its reservation back. */
    method ReleasePorts(id: Id)
      modifies this
      ensures Snap() == old(Snap()).(pending := old(pendingPorts) - {id}, inflight := old(inflight) - {id})
    {
      inflight := inflight - {id};
      pendingPorts := pendingPorts - {id};
    }

    method Delete(id: Id)
      modifies this
      ensures Snap() == old(Snap()).(rows := old(rows) - {id})
    {
      rows := rows - {id};
    }

    /** The row change of an archive: no node any more, the ports stay. */
    method Archive(id: Id)
      requires id in rows
      modifies this
      ensures Snap() == old(Snap()).Vacated(id)
      ensures rows == old(rows)[id := Row("", old(rows)[id].ports, old(rows)[id].auto)]
    {
      rows := rows[id := rows[id].(node := "")];
    }

    // ----- moving -----

    method ReallocatePorts(ports: seq<GamePort>, node: NodeId, exclude: Id, faults: Faults)
        returns (r: Result<seq<PortMapping>>)
      requires Snap().RangesNonNegative()
      modifies this`pendingPorts
      ensures Snap() == old(Snap())
      ensures r.Ok? <==> old(Snap()).CanAllocate(ports, node, exclude, faults)
      ensures r.Ok? ==> old(Snap()).Allocation(ports, node, exclude, faults, r.value)
    {
      r := AllocatePorts(ports, node, exclude, "", faults);
    }

    /**
     The port part of a migration or unarchive: under node scope the ports are allocated anew,
     and kept when that fails. The result is only in memory.
     */
    method Reallocate(id: Id, ports: seq<GamePort>, node: NodeId, faults: Faults) returns (move: Move)
      requires Snap().RangesNonNegative() && id in rows
      modifies this
      ensures old(Snap()).Reallocated(id, ports, node, faults, move)
      ensures Snap() == old(Snap()).(moving := old(moving)[id := move])
      ensures move.node == node && (!move.isNew ==> move.ports == rows[id].ports)
      ensures move.isNew <==> !clusterWide && old(Snap()).CanAllocate(ports, node, id, faults)
      ensures move.isNew ==> old(Snap()).Allocation(ports, node, id, faults, move.ports)
    {
      move := Move(node, rows[id].ports, false);
      if !clusterWide {
        var r := ReallocatePorts(ports, node, id, faults);
        if r.Ok? {
          move := Move(node, r.value, true);
        }
      }
      moving := moving[id := move];
    }

    /** The row write: node and ports together, if the row is still there. */
    method PersistMove(id: Id)
      requires id in moving
      modifies this
      ensures Snap() == old(Snap()).Moved(id)
      ensures id in old(rows) ==>
                rows == old(rows)[id := Row(old(moving)[id].node, old(moving)[id].ports, old(rows)[id].auto)]
    {
      if id in rows {
        rows := rows[id := rows[id].(node := moving[id].node, ports := moving[id].ports)];
      }
      moving := moving - {id};
    }

    // ----- runs -----

    /** Any interleaving of the steps of any creators, moves, archives and deletions, and the tables in between. */
    method Run(events: seq<Event>) returns (ghost tables: seq<Table>)
      requires Snap().RangesNonNegative()
      modifies this
      ensures IsRun(tables, events) && tables[0] == old(Snap()) && tables[|events|] == Snap()
    {
      tables := [Snap()];
      for i := 0 to |events|
        invariant Snap().RangesNonNegative()
        invariant IsRun(tables, events[..i]) && tables[0] == old(Snap()) && tables[i] == Snap()
      {
        Perform(events[i]);
        RunGrows(tables, events, i, Snap());
        tables := tables + [Snap()];
      }
      assert events[..|events|] == events;
    }

    method Perform(e: Event)
      requires Snap().RangesNonNegative()
      modifies this
      ensures old(Snap()).Step(e, Snap())
    {
      match e {
        case DoCreate(ports, id, pinned, ranked, fits, faults) =>
          if id != "" && id !in rows && id !in inflight && id !in moving {
            var claim := Create(ports, id, pinned, ranked, fits, faults);
          }
        case DoReallocate(id, ports, node, faults) =>
          if id in rows {
            var move := Reallocate(id, ports, node, faults);
          }
        case DoPersistMove(id) =>
          if id in moving {
            PersistMove(id);
          }
        case _ => PerformQuietly(e);
      }
    }

    /** The steps that allocate nothing and move nothing. */
    method PerformQuietly(e: Event)
      requires !e.DoCreate? && !e.DoReallocate? && !e.DoPersistMove?
      modifies this
      ensures old(Snap()).Step(e, Snap())
    {
      match e {
        case DoPersist(id) =>
          if id in inflight {
            Persist(id);
          }
        case DoPersistManual(id, row) =>
          if id != "" && id !in rows && id !in inflight && id !in moving && !row.auto {
            PersistManual(id, row);
          }
        case DoCommit(id) =>
          if id !in inflight {
            CommitPorts(id);
          }
        case DoRelease(id) => ReleasePorts(id);
        case DoDelete(id) => Delete(id);
        case DoArchive(id) =>
          if id in rows {
            Archive(id);
          }
        case DoAbandonMove(id) => moving := moving - {id};
      }
    }
  }

  lemma RunGrows(tables: seq<Table>, events: seq<Event>, i: nat, next: Table)
    requires i < |events| && IsRun(tables, events[..i]) && tables[i].Step(events[i], next)
    ensures IsRun(tables + [next], events[..i + 1])
  {
    assert forall k :: 0 <= k < i ==> events[..i + 1][k] == events[..i][k];
  }
}
