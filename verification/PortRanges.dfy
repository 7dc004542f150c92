/** Updating a worker node's port range so that ranges of different workers never share a port. */
module PortRanges {
  import opened Common
  import opened Ports

  /** Resource limits of a worker; an absent one is unlimited. */
  datatype Limits = Limits(memory: Option<int>, cpu: Option<real>, storage: Option<int>)

  /** The row of a worker, as far as updates change it. */
  datatype WorkerNode = WorkerNode(
    name: string, limits: Limits, cordoned: bool, tags: map<string, string>, range: Range)

  /** A partial update; what is absent is not asked for. */
  datatype NodeUpdate = NodeUpdate(
    name: Option<string>, limits: Limits, cordoned: Option<bool>, tags: Option<map<string, string>>,
    start: Option<int>, end: Option<int>)

  /** The groups of columns an update writes one after the other. */
  datatype Column = NameColumn | LimitsColumn | CordonColumn | TagsColumn | RangeColumn

  predicate Asks(u: NodeUpdate, c: Column) {
    match c
    case NameColumn => u.name.Some?
    case LimitsColumn => u.limits.memory.Some? || u.limits.cpu.Some? || u.limits.storage.Some?
    case CordonColumn => u.cordoned.Some?
    case TagsColumn => u.tags.Some?
    case RangeColumn => u.start.Some? || u.end.Some?
  }

  predicate ValidUpdate(u: NodeUpdate) {
    && (u.limits.memory.Some? ==> u.limits.memory.value >= 0)
    && (u.limits.cpu.Some? ==> u.limits.cpu.value >= 0.0)
    && (u.limits.storage.Some? ==> u.limits.storage.value >= 0)
    && (u.start.Some? ==> u.start.value >= 0)
    && (u.end.Some? ==> u.end.value >= 0)
    && (u.start.Some? && u.end.Some? ==> u.start.value <= u.end.value)
  }

  function Merged(r: Range, u: NodeUpdate): Range {
    Range(if u.start.Some? then u.start else r.lo, if u.end.Some? then u.end else r.hi)
  }

  predicate BothSet(r: Range) {
    r.lo.Some? && r.hi.Some?
  }

  /** The overlap test as the service writes it, which also judges inverted ranges. */
  predicate Collides(r: Range, start: int, end: int) {
    BothSet(r) && start <= r.hi.value && end >= r.lo.value
  }

  /** The test is exact on proper ranges, and never misses a shared port on any. */
  lemma CollidesIsExact(r: Range, start: int, end: int)
    requires BothSet(r)
    ensures (exists p :: start <= p <= end && InRange(r, p)) <==>
            Collides(r, start, end) && start <= end && r.lo.value <= r.hi.value
  {
    if Collides(r, start, end) && start <= end && r.lo.value <= r.hi.value {
      var p := if start <= r.lo.value then r.lo.value else start;
      assert InRange(r, p);
    }
  }

  function RangesOf(nodes: map<NodeId, WorkerNode>): map<NodeId, Range> {
    map n | n in nodes :: nodes[n].range
  }

  /** No other worker's range collides with the merged one. */
  ghost predicate RangeFits(nodes: map<NodeId, WorkerNode>, id: NodeId, u: NodeUpdate)
    requires id in nodes
  {
    var m := Merged(nodes[id].range, u);
    BothSet(m) ==> forall n :: n in nodes && n != id ==> !Collides(nodes[n].range, m.lo.value, m.hi.value)
  }

  const COLUMNS := [NameColumn, LimitsColumn, CordonColumn, TagsColumn, RangeColumn]

  function ColumnIndex(c: Column): nat {
    match c
    case NameColumn => 0
    case LimitsColumn => 1
    case CordonColumn => 2
    case TagsColumn => 3
    case RangeColumn => 4
  }

  /** The groups that cannot be written: all without the worker, those with failing statements, a colliding range. */
  ghost function Bad(nodes: map<NodeId, WorkerNode>, id: NodeId, u: NodeUpdate, faults: set<Column>): set<Column> {
    if id !in nodes then {NameColumn, LimitsColumn, CordonColumn, TagsColumn, RangeColumn}
    else if RangeFits(nodes, id, u) then faults
    else faults + {RangeColumn}
  }

  ghost predicate Accepted(nodes: map<NodeId, WorkerNode>, id: NodeId, u: NodeUpdate, faults: set<Column>) {
    ValidUpdate(u) && forall c :: Asks(u, c) ==> c !in Bad(nodes, id, u, faults)
  }

  /** The number of groups before the first one that fails, counted from `k`; five if none does. */
  function Reached(u: NodeUpdate, bad: set<Column>, k: nat): nat
    decreases 5 - k
  {
    if k >= 5 || (Asks(u, COLUMNS[k]) && COLUMNS[k] in bad) then k else Reached(u, bad, k + 1)
  }

  /** A worker with the first `k` groups of an update written. */
  function Written(w: WorkerNode, u: NodeUpdate, k: nat): WorkerNode {
    WorkerNode(
      if k > 0 && u.name.Some? then u.name.value else w.name,
      if k > 1 && Asks(u, LimitsColumn) then u.limits else w.limits,
      if k > 2 && u.cordoned.Some? then u.cordoned.value else w.cordoned,
      if k > 3 && u.tags.Some? then u.tags.value else w.tags,
      if k > 4 then Merged(w.range, u) else w.range)
  }

  function Rewritten(nodes: map<NodeId, WorkerNode>, id: NodeId, u: NodeUpdate, k: nat): map<NodeId, WorkerNode> {
    if id in nodes then nodes[id := Written(nodes[id], u, k)] else nodes
  }

  /** The stored workers after an update, accepted or not: the groups before the first failure are written. */
  ghost function AfterUpdate(nodes: map<NodeId, WorkerNode>, id: NodeId, u: NodeUpdate, faults: set<Column>)
    : map<NodeId, WorkerNode>
  {
    Rewritten(nodes, id, u, if ValidUpdate(u) then Reached(u, Bad(nodes, id, u, faults), 0) else 0)
  }

  /** The range part finds the stored ranges as they were before the update. */
  lemma LastGroup(nodes: map<NodeId, WorkerNode>, id: NodeId, u: NodeUpdate)
    requires id in nodes
    ensures
      var four := Rewritten(nodes, id, u, 4);
      && (RangeFits(four, id, u) <==> RangeFits(nodes, id, u))
      && Rewritten(nodes, id, u, 5) == four[id := four[id].(range := Merged(four[id].range, u))]
  {
    var four := Rewritten(nodes, id, u, 4);
    assert four.Keys == nodes.Keys && forall n :: n in nodes ==> four[n].range == nodes[n].range;
  }

  lemma {:induction false} ReachedFrom(u: NodeUpdate, bad: set<Column>, k: nat)
    requires k <= 5
    ensures k <= Reached(u, bad, k) <= 5
    ensures Reached(u, bad, k) == 5 <==> forall c :: k <= ColumnIndex(c) && Asks(u, c) ==> c !in bad
    decreases 5 - k
  {
    if k < 5 {
      ReachedFrom(u, bad, k + 1);
      assert forall c :: ColumnIndex(c) == k <==> c == COLUMNS[k];
    }
  }

  ghost predicate NonNegative(ranges: map<NodeId, Range>) {
    forall n :: n in ranges ==>
      && (ranges[n].lo.Some? ==> ranges[n].lo.value >= 0)
      && (ranges[n].hi.Some? ==> ranges[n].hi.value >= 0)
  }

  ghost predicate Sound(nodes: map<NodeId, WorkerNode>) {
    DisjointRanges(RangesOf(nodes)) && NonNegative(RangesOf(nodes))
  }

  lemma UpdateKeepsDisjoint(nodes: map<NodeId, WorkerNode>, id: NodeId, u: NodeUpdate, faults: set<Column>)
    requires Sound(nodes)
    ensures Sound(AfterUpdate(nodes, id, u, faults))
  {
    var before, after := RangesOf(nodes), RangesOf(AfterUpdate(nodes, id, u, faults));
    ReachedFrom(u, Bad(nodes, id, u, faults), 0);
    if Accepted(nodes, id, u, faults) && Asks(u, RangeColumn) {
      assert after == before[id := Merged(before[id], u)];
    } else {
      assert after == before;
    }
  }

  /** What an accepted update writes: all limits once one is given, and the range end by end. */
  lemma AcceptedUpdateWrites(nodes: map<NodeId, WorkerNode>, id: NodeId, u: NodeUpdate, faults: set<Column>)
    requires id in nodes && Accepted(nodes, id, u, faults)
    ensures
      var w := nodes[id];
      AfterUpdate(nodes, id, u, faults) == nodes[id := WorkerNode(
        if u.name.Some? then u.name.value else w.name,
        if u.limits.memory.Some? || u.limits.cpu.Some? || u.limits.storage.Some? then u.limits else w.limits,
        if u.cordoned.Some? then u.cordoned.value else w.cordoned,
        if u.tags.Some? then u.tags.value else w.tags,
        Range(if u.start.Some? then u.start else w.range.lo, if u.end.Some? then u.end else w.range.hi))]
  {
    ReachedFrom(u, Bad(nodes, id, u, faults), 0);
  }

  /** When no statement fails: no negative number, a known worker, and a range after merging that no other one meets. */
  lemma AcceptedExactly(nodes: map<NodeId, WorkerNode>, id: NodeId, u: NodeUpdate)
    requires id in nodes
    ensures
      var lo := if u.start.Some? then u.start else nodes[id].range.lo;
      var hi := if u.end.Some? then u.end else nodes[id].range.hi;
      Accepted(nodes, id, u, {}) <==>
        && !(u.limits.memory.Some? && u.limits.memory.value < 0) && !(u.limits.cpu.Some? && u.limits.cpu.value < 0.0)
        && !(u.limits.storage.Some? && u.limits.storage.value < 0)
        && !(u.start.Some? && u.start.value < 0) && !(u.end.Some? && u.end.value < 0)
        && !(u.start.Some? && u.end.Some? && u.end.value < u.start.value)
        && ((u.start.Some? || u.end.Some?) && lo.Some? && hi.Some? ==>
              forall n :: n in nodes && n != id && nodes[n].range.lo.Some? && nodes[n].range.hi.Some? ==>
                nodes[n].range.hi.value < lo.value || hi.value < nodes[n].range.lo.value)
  {
    assert Asks(u, RangeColumn) <==> u.start.Some? || u.end.Some?;
  }

  /** An update whose range collides is rejected with everything else of it written. */
  lemma RejectedRangeKeepsTheRest(nodes: map<NodeId, WorkerNode>, id: NodeId, u: NodeUpdate)
    requires ValidUpdate(u) && id in nodes && Asks(u, RangeColumn) && !RangeFits(nodes, id, u)
    ensures !Accepted(nodes, id, u, {}) && AfterUpdate(nodes, id, u, {}) == Rewritten(nodes, id, u, 4)
  {
    var bad := Bad(nodes, id, u, {});
    assert bad == {RangeColumn};
    assert Reached(u, bad, 4) == 4 && Reached(u, bad, 3) == 4 && Reached(u, bad, 2) == 4 && Reached(u, bad, 1) == 4;
  }

  /** The worker already has what the update asks for, apart from the range. */
  predicate HasAlready(w: WorkerNode, u: NodeUpdate) {
    && (u.name.Some? ==> u.name.value == w.name)
    && (Asks(u, LimitsColumn) ==> u.limits == w.limits)
    && (u.cordoned.Some? ==> u.cordoned.value == w.cordoned)
    && (u.tags.Some? ==> u.tags.value == w.tags)
  }

  /** So a rejection for the range is atomic exactly when nothing else of the update was new. */
  lemma RejectedUpdateIsAtomicExactly(nodes: map<NodeId, WorkerNode>, id: NodeId, u: NodeUpdate)
    requires ValidUpdate(u) && id in nodes && Asks(u, RangeColumn) && !RangeFits(nodes, id, u)
    ensures !Accepted(nodes, id, u, {})
    ensures AfterUpdate(nodes, id, u, {}) == nodes <==> HasAlready(nodes[id], u)
  {
    RejectedRangeKeepsTheRest(nodes, id, u);
    var after := Rewritten(nodes, id, u, 4);
    assert after == nodes <==> after[id] == nodes[id];
  }

  const RENAME_ONTO := NodeUpdate(Some("new"), Limits(None, None, None), None, None, Some(5), Some(9))

  /** Two workers, and a rename with a range that collides with the other's: rejected, and renamed. */
  lemma RejectedRenameExample(a: WorkerNode, b: WorkerNode, x: NodeId, y: NodeId)
    requires x != y && a.name != "new" && b.range == Range(Some(1), Some(5))
    ensures
      var nodes := map[x := a, y := b];
      var after := AfterUpdate(nodes, x, RENAME_ONTO, {});
      !Accepted(nodes, x, RENAME_ONTO, {}) && after == map[x := a.(name := "new"), y := b]
  {
    var nodes := map[x := a, y := b];
    assert y in nodes && Collides(nodes[y].range, 5, 9) && !RangeFits(nodes, x, RENAME_ONTO);
    RejectedRangeKeepsTheRest(nodes, x, RENAME_ONTO);
  }

  datatype Request = Request(id: NodeId, update: NodeUpdate, faults: set<Column>)

  ghost function AfterUpdates(nodes: map<NodeId, WorkerNode>, requests: seq<Request>): map<NodeId, WorkerNode>
    decreases |requests|
  {
    if requests == [] then nodes
    else AfterUpdates(AfterUpdate(nodes, requests[0].id, requests[0].update, requests[0].faults), requests[1..])
  }

  /** After every sequence of updates, one-ended, rejected and failing ones included, no two workers share a port. */
  lemma {:induction false} RangesStayDisjoint(nodes: map<NodeId, WorkerNode>, requests: seq<Request>)
    requires Sound(nodes)
    ensures forall k :: 0 <= k <= |requests| ==> Sound(AfterUpdates(nodes, requests[..k]))
    decreases |requests|
  {
    if requests != [] {
      UpdateKeepsDisjoint(nodes, requests[0].id, requests[0].update, requests[0].faults);
      var next := AfterUpdate(nodes, requests[0].id, requests[0].update, requests[0].faults);
      RangesStayDisjoint(next, requests[1..]);
      forall k | 0 < k <= |requests|
        ensures AfterUpdates(nodes, requests[..k]) == AfterUpdates(next, requests[1..][..k - 1])
      {
        assert requests[..k][1..] == requests[1..][..k - 1];
      }
    }
  }

  /** Limits an update does not mention keep their values. */
  predicate KeepsAbsentLimits(before: Limits, u: Limits, after: Limits) {
    && (u.memory.None? ==> after.memory == before.memory)
    && (u.cpu.None? ==> after.cpu == before.cpu)
    && (u.storage.None? ==> after.storage == before.storage)
  }

  /**
   All three limits are written when one is given, so an accepted update leaves the limits it does
   not mention alone exactly when it mentions none, or those it does not mention were not set.
   */
  lemma AbsentLimitsStayExactly(nodes: map<NodeId, WorkerNode>, id: NodeId, u: NodeUpdate, faults: set<Column>)
    requires id in nodes && Accepted(nodes, id, u, faults)
    ensures KeepsAbsentLimits(nodes[id].limits, u.limits, AfterUpdate(nodes, id, u, faults)[id].limits) <==>
            !Asks(u, LimitsColumn) || KeepsAbsentLimits(nodes[id].limits, u.limits, Limits(None, None, None))
  {
    ReachedFrom(u, Bad(nodes, id, u, faults), 0);
  }

  const ONLY_MEMORY := NodeUpdate(None, Limits(Some(2048), None, None), None, None, None, None)

  /** Setting a memory limit takes away the CPU limit. */
  lemma ClearedLimitExample(node: WorkerNode, id: NodeId)
    requires node.limits == Limits(None, Some(2.0), None)
    ensures Accepted(map[id := node], id, ONLY_MEMORY, {})
    ensures AfterUpdate(map[id := node], id, ONLY_MEMORY, {})[id].limits == Limits(Some(2048), None, None)
  {
    ReachedFrom(ONLY_MEMORY, {}, 0);
  }

  class WorkerNodeService {
    var nodes: map<NodeId, WorkerNode>

    constructor (known: map<NodeId, WorkerNode>)
      ensures nodes == known
      ensures (forall n :: n in known ==> known[n].range == Range(None, None)) ==> Sound(nodes)
    {
      nodes := known;
    }

    method ValidatePortRangeNoOverlap(id: NodeId, start: int, end: int) returns (ok: bool)
      ensures ok <==> forall n :: n in nodes && n != id ==> !Collides(nodes[n].range, start, end)
    {
      var todo := nodes.Keys;
      while todo != {}
        invariant todo <= nodes.Keys
        invariant forall n :: n in nodes.Keys - todo && n != id ==> !Collides(nodes[n].range, start, end)
      {
        var n :| n in todo;
        var r := nodes[n].range;
        if n != id && r.lo.Some? && r.hi.Some? {
          if start <= r.hi.value && end >= r.lo.value {
            assert Collides(nodes[n].range, start, end);
            return false;
          }
        }
        todo := todo - {n};
      }
      return true;
    }

    /** The first failure ends the update; what was written before it stays. */
    method Update(id: NodeId, u: NodeUpdate, faults: set<Column>) returns (ok: bool)
      modifies this
      ensures ok <==> Accepted(old(nodes), id, u, faults)
      ensures nodes == AfterUpdate(old(nodes), id, u, faults)
      ensures old(Sound(nodes)) ==> Sound(nodes)
    {
      if old(Sound(nodes)) {
        UpdateKeepsDisjoint(nodes, id, u, faults);
      }
      if !ValidUpdate(u) {
        return false;
      }
      ghost var bad := Bad(nodes, id, u, faults);
      ReachedFrom(u, bad, 0);
      ok := UpdateProfile(id, u, faults, bad);
      if ok {
        ok := UpdateFlags(id, u, faults, old(nodes), bad);
      }
      if ok && (u.start.Some? || u.end.Some?) {
        if id in nodes {
          LastGroup(old(nodes), id, u);
        }
        ok := UpdateRange(id, u, faults);
      }
    }

    /** The first `k` groups of an update of `before` are done. */
    ghost predicate At(before: map<NodeId, WorkerNode>, id: NodeId, u: NodeUpdate, bad: set<Column>, k: nat)
      reads this
    {
      Reached(u, bad, 0) == Reached(u, bad, k) && nodes == Rewritten(before, id, u, k)
    }

    /** The update ended at a failure. */
    ghost predicate Stopped(before: map<NodeId, WorkerNode>, id: NodeId, u: NodeUpdate, bad: set<Column>)
      reads this
    {
      Reached(u, bad, 0) < 4 && nodes == Rewritten(before, id, u, Reached(u, bad, 0))
    }

    /** Name and limits. */
    method UpdateProfile(id: NodeId, u: NodeUpdate, faults: set<Column>, ghost bad: set<Column>) returns (ok: bool)
      requires forall c :: c in {NameColumn, LimitsColumn} ==> (c in bad <==> id !in nodes || c in faults)
      modifies this
      ensures if ok then At(old(nodes), id, u, bad, 2) else Stopped(old(nodes), id, u, bad)
    {
      ok := true;
      if u.name.Some? {
        ok := id in nodes && NameColumn !in faults;
        if !ok {
          return;
        }
        nodes := nodes[id := nodes[id].(name := u.name.value)];
      }
      assert At(old(nodes), id, u, bad, 1);
      if u.limits.memory.Some? || u.limits.cpu.Some? || u.limits.storage.Some? {
        ok := id in nodes && LimitsColumn !in faults;
        if !ok {
          return;
        }
        nodes := nodes[id := nodes[id].(limits := u.limits)];
      }
    }

    /** Cordon and tags. */
    method UpdateFlags(id: NodeId, u: NodeUpdate, faults: set<Column>, ghost before: map<NodeId, WorkerNode>,
                       ghost bad: set<Column>) returns (ok: bool)
      requires At(before, id, u, bad, 2)
      requires forall c :: c in {CordonColumn, TagsColumn} ==> (c in bad <==> id !in before || c in faults)
      modifies this
      ensures if ok then At(before, id, u, bad, 4) else Stopped(before, id, u, bad)
    {
      ok := true;
      if u.cordoned.Some? {
        ok := id in nodes && CordonColumn !in faults;
        if !ok {
          return;
        }
        nodes := nodes[id := nodes[id].(cordoned := u.cordoned.value)];
      }
      assert At(before, id, u, bad, 3);
      if u.tags.Some? {
        ok := id in nodes && TagsColumn !in faults;
        if !ok {
          return;
        }
        nodes := nodes[id := nodes[id].(tags := u.tags.value)];
      }
    }

    /** The range part: merge with the stored range, check against the others, write. */
    method UpdateRange(id: NodeId, u: NodeUpdate, faults: set<Column>) returns (ok: bool)
      modifies this
      ensures ok <==> id in old(nodes) && RangeColumn !in faults && RangeFits(old(nodes), id, u)
      ensures nodes == if ok then old(nodes)[id := old(nodes)[id].(range := Merged(old(nodes)[id].range, u))]
                       else old(nodes)
    {
      if id !in nodes || RangeColumn in faults {
        return false;
      }
      var start, end := nodes[id].range.lo, nodes[id].range.hi;
      if u.start.Some? {
        start := u.start;
      }
      if u.end.Some? {
        end := u.end;
      }
      if start.Some? && end.Some? {
        var free := ValidatePortRangeNoOverlap(id, start.value, end.value);
        if !free {
          return false;
        }
      }
      nodes := nodes[id := nodes[id].(range := Range(start, end))];
      return true;
    }
  }
}
